/**
 The model digest of the bounded verification domain: nine parities of the 320
 bits of timestamp and previous hash, one per bit of the code p + 1 of bit p.
 */
module Syndrome {

  /** The 320 bits, as five little-endian words. */
  datatype Block = Block(w0: bv64, w1: bv64, w2: bv64, w3: bv64, w4: bv64)

  function Xor(x: bv64, y: bv64): bv64 {
    x ^ y
  }

  function And(x: bv64, y: bv64): bv64 {
    x & y
  }

  predicate BitSet(w: bv64, k: bv64)
    requires k < 64
  {
    (w >> k) & 1 == 1
  }

  // ---- What the code computes --------------------------------------------

  /** `count_ones` of the lowest `n` bits. */
  function CountOnes(w: bv64, n: bv64): nat
    requires n <= 64
    decreases n
  {
    if n == 0 then 0 else CountOnes(w, n - 1) + if BitSet(w, n - 1) then 1 else 0
  }

  function Parity(w: bv64): bv64 {
    if CountOnes(w, 64) % 2 == 1 then 1 else 0
  }

  function Masks(j: nat): Block
    requires j < 9
  {
    match j
    case 0 => Block(0x5555_5555_5555_5555, 0x5555_5555_5555_5555, 0x5555_5555_5555_5555,
      0x5555_5555_5555_5555, 0x5555_5555_5555_5555)
    case 1 => Block(0x6666_6666_6666_6666, 0x6666_6666_6666_6666, 0x6666_6666_6666_6666,
      0x6666_6666_6666_6666, 0x6666_6666_6666_6666)
    case 2 => Block(0x7878_7878_7878_7878, 0x7878_7878_7878_7878, 0x7878_7878_7878_7878,
      0x7878_7878_7878_7878, 0x7878_7878_7878_7878)
    case 3 => Block(0x7f80_7f80_7f80_7f80, 0x7f80_7f80_7f80_7f80, 0x7f80_7f80_7f80_7f80,
      0x7f80_7f80_7f80_7f80, 0x7f80_7f80_7f80_7f80)
    case 4 => Block(0x7fff_8000_7fff_8000, 0x7fff_8000_7fff_8000, 0x7fff_8000_7fff_8000,
      0x7fff_8000_7fff_8000, 0x7fff_8000_7fff_8000)
    case 5 => Block(0x7fff_ffff_8000_0000, 0x7fff_ffff_8000_0000, 0x7fff_ffff_8000_0000,
      0x7fff_ffff_8000_0000, 0x7fff_ffff_8000_0000)
    case 6 => Block(0x8000_0000_0000_0000, 0x7fff_ffff_ffff_ffff, 0x8000_0000_0000_0000,
      0x7fff_ffff_ffff_ffff, 0x8000_0000_0000_0000)
    case 7 => Block(0, 0x8000_0000_0000_0000, 0xffff_ffff_ffff_ffff, 0x7fff_ffff_ffff_ffff, 0)
    case _ => Block(0, 0, 0, 0x8000_0000_0000_0000, 0xffff_ffff_ffff_ffff)
  }

  /** The words under their masks, exclusive-ored together. */
  function Fold(b: Block, m: Block): bv64 {
    Xor(Xor(Xor(Xor(And(b.w0, m.w0), And(b.w1, m.w1)), And(b.w2, m.w2)), And(b.w3, m.w3)), And(b.w4, m.w4))
  }

  function Line(b: Block, j: nat): bv64
    requires j < 9
  {
    Parity(Fold(b, Masks(j)))
  }

  /** The nine lines, packed. */
  function Syndrome(b: Block): bv64 {
    Packed(Line(b, 0), Line(b, 1), Line(b, 2), Line(b, 3), Line(b, 4), Line(b, 5), Line(b, 6), Line(b, 7), Line(b, 8))
  }

  function Packed(s0: bv64, s1: bv64, s2: bv64, s3: bv64, s4: bv64, s5: bv64, s6: bv64, s7: bv64, s8: bv64): bv64 {
    s0 | (s1 << 1) | (s2 << 2) | (s3 << 3) | (s4 << 4) | (s5 << 5) | (s6 << 6) | (s7 << 7) | (s8 << 8)
  }

  // ---- What it means -----------------------------------------------------

  /** The code of bit k, if the bit is set. */
  function Term(w: bv64, base: bv64, k: bv64): bv64
    requires k < 64
  {
    if BitSet(w, k) then base + k else 0
  }

  /** The exclusive or of the codes base, base + 1, ... of the set bits. */
  function WordCodes(w: bv64, base: bv64, n: bv64): bv64
    requires n <= 64
    decreases n
  {
    if n == 0 then 0 else Xor(WordCodes(w, base, n - 1), Term(w, base, n - 1))
  }

  /** The exclusive or of the codes p + 1 of the set bits p of the block. */
  function Codes(b: Block): bv64 {
    Xor(Xor(Xor(Xor(WordCodes(b.w0, 1, 64), WordCodes(b.w1, 65, 64)), WordCodes(b.w2, 129, 64)),
            WordCodes(b.w3, 193, 64)), WordCodes(b.w4, 257, 64))
  }

  predicate Odd(w: bv64, n: bv64)
    requires n <= 64
  {
    CountOnes(w, n) % 2 == 1
  }

  // ---- Bits --------------------------------------------------------------

  lemma BitsOfXor(x: bv64, y: bv64, k: bv64)
    requires k < 64
    ensures BitSet(x ^ y, k) == (BitSet(x, k) != BitSet(y, k))
  {
  }

  lemma BitOfXor(x: bv64, y: bv64, k: bv64)
    requires k < 64
    ensures BitSet(Xor(x, y), k) == (BitSet(x, k) != BitSet(y, k))
  {
    hide BitSet;
    BitsOfXor(x, y, k);
  }

  lemma BitsOfAnd(x: bv64, y: bv64, k: bv64)
    requires k < 64
    ensures BitSet(x & y, k) == (BitSet(x, k) && BitSet(y, k))
  {
  }

  lemma BitOfAnd(x: bv64, y: bv64, k: bv64)
    requires k < 64
    ensures BitSet(And(x, y), k) == (BitSet(x, k) && BitSet(y, k))
  {
    hide BitSet;
    BitsOfAnd(x, y, k);
  }

  lemma ZeroBit(k: bv64)
    requires k < 64
    ensures !BitSet(0, k)
  {
  }

  lemma {:induction false} OddXor(x: bv64, y: bv64, n: bv64)
    requires n <= 64
    ensures Odd(Xor(x, y), n) == (Odd(x, n) != Odd(y, n))
    decreases n
  {
    hide BitSet, Xor;
    if n > 0 {
      OddXor(x, y, n - 1);
      BitOfXor(x, y, n - 1);
    }
  }

  /** Bit k of the mask is bit j of the code of bit k. */
  ghost predicate Matches(m: bv64, base: bv64, j: bv64)
    requires j < 64
  {
    forall k: bv64 | k < 64 :: BitSet(m, k) == BitSet(base + k, j)
  }

  lemma TermBit(w: bv64, m: bv64, base: bv64, j: bv64, k: bv64)
    requires k < 64 && j < 64 && Matches(m, base, j)
    ensures BitSet(Term(w, base, k), j) == BitSet(And(w, m), k)
  {
    hide BitSet, And;
    BitOfAnd(w, m, k);
    ZeroBit(j);
  }

  lemma CodesStep(w: bv64, base: bv64, j: bv64, n: bv64)
    requires 0 < n <= 64 && j < 64
    ensures BitSet(WordCodes(w, base, n), j)
      == (BitSet(WordCodes(w, base, n - 1), j) != BitSet(Term(w, base, n - 1), j))
  {
    hide BitSet, Term, Xor;
    BitOfXor(WordCodes(w, base, n - 1), Term(w, base, n - 1), j);
  }

  /** A masked parity is one bit of the exclusive or of the codes. */
  lemma {:induction false} MaskedParity(w: bv64, m: bv64, base: bv64, j: bv64, n: bv64)
    requires n <= 64 && j < 64 && Matches(m, base, j)
    ensures Odd(And(w, m), n) == BitSet(WordCodes(w, base, n), j)
    decreases n
  {
    hide BitSet, Term, Xor, And, Matches;
    if n == 0 {
      ZeroBit(j);
    } else {
      MaskedParity(w, m, base, j, n - 1);
      TermBit(w, m, base, j, n - 1);
      CodesStep(w, base, j, n);
    }
  }

  // ---- The nine lines ----------------------------------------------------

  /** The masks of line j pick, in each word, the bits whose code has bit j. */
  ghost predicate LineMatches(m: Block, j: bv64)
    requires j < 64
  {
    Matches(m.w0, 1, j) && Matches(m.w1, 65, j) && Matches(m.w2, 129, j)
      && Matches(m.w3, 193, j) && Matches(m.w4, 257, j)
  }

  /** The codes of the words differ by multiples of 64. */
  lemma CodesRepeat(k: bv64, j: bv64)
    requires k < 64 && j < 6
    ensures BitSet(1 + k, j) == BitSet(65 + k, j) == BitSet(129 + k, j)
    ensures BitSet(1 + k, j) == BitSet(193 + k, j) == BitSet(257 + k, j)
  {
  }

  lemma RepeatedMask(m: bv64, j: bv64)
    requires j < 6 && Matches(m, 1, j)
    ensures LineMatches(Block(m, m, m, m, m), j)
  {
    hide BitSet;
    forall k: bv64 | k < 64
      ensures BitSet(m, k) == BitSet(1 + k, j) == BitSet(65 + k, j)
      ensures BitSet(m, k) == BitSet(129 + k, j) == BitSet(193 + k, j) == BitSet(257 + k, j)
    {
      CodesRepeat(k, j);
    }
  }

  lemma LowMasks()
    ensures Matches(0x5555_5555_5555_5555, 1, 0)
    ensures Matches(0x6666_6666_6666_6666, 1, 1)
    ensures Matches(0x7878_7878_7878_7878, 1, 2)
    ensures Matches(0x7f80_7f80_7f80_7f80, 1, 3)
    ensures Matches(0x7fff_8000_7fff_8000, 1, 4)
    ensures Matches(0x7fff_ffff_8000_0000, 1, 5)
  {
  }

  lemma MasksOfLine0()
    ensures LineMatches(Masks(0), 0)
  {
    hide Matches;
    LowMasks();
    RepeatedMask(0x5555_5555_5555_5555, 0);
  }

  lemma MasksOfLine1()
    ensures LineMatches(Masks(1), 1)
  {
    hide Matches;
    LowMasks();
    RepeatedMask(0x6666_6666_6666_6666, 1);
  }

  lemma MasksOfLine2()
    ensures LineMatches(Masks(2), 2)
  {
    hide Matches;
    LowMasks();
    RepeatedMask(0x7878_7878_7878_7878, 2);
  }

  lemma MasksOfLine3()
    ensures LineMatches(Masks(3), 3)
  {
    hide Matches;
    LowMasks();
    RepeatedMask(0x7f80_7f80_7f80_7f80, 3);
  }

  lemma MasksOfLine4()
    ensures LineMatches(Masks(4), 4)
  {
    hide Matches;
    LowMasks();
    RepeatedMask(0x7fff_8000_7fff_8000, 4);
  }

  lemma MasksOfLine5()
    ensures LineMatches(Masks(5), 5)
  {
    hide Matches;
    LowMasks();
    RepeatedMask(0x7fff_ffff_8000_0000, 5);
  }

  lemma AlternatingMasks()
    ensures Matches(0x8000_0000_0000_0000, 1, 6) && Matches(0x7fff_ffff_ffff_ffff, 65, 6)
    ensures Matches(0x8000_0000_0000_0000, 129, 6) && Matches(0x7fff_ffff_ffff_ffff, 193, 6)
    ensures Matches(0x8000_0000_0000_0000, 257, 6)
  {
  }

  lemma MasksOfLine6()
    ensures LineMatches(Masks(6), 6)
  {
    hide Matches;
    AlternatingMasks();
  }

  lemma MasksOfLine7()
    ensures LineMatches(Masks(7), 7)
  {
  }

  lemma MasksOfLine8()
    ensures LineMatches(Masks(8), 8)
  {
  }

  lemma FoldParity(b: Block, m: Block, j: bv64)
    requires j < 64 && LineMatches(m, j)
    ensures Odd(Fold(b, m), 64) == BitSet(Codes(b), j)
  {
    hide Odd, BitSet, Matches, Xor, And, WordCodes;
    var a0, a1, a2, a3, a4 := And(b.w0, m.w0), And(b.w1, m.w1), And(b.w2, m.w2), And(b.w3, m.w3), And(b.w4, m.w4);
    OddXor(a0, a1, 64);
    OddXor(Xor(a0, a1), a2, 64);
    OddXor(Xor(Xor(a0, a1), a2), a3, 64);
    OddXor(Xor(Xor(Xor(a0, a1), a2), a3), a4, 64);
    MaskedParity(b.w0, m.w0, 1, j, 64);
    MaskedParity(b.w1, m.w1, 65, j, 64);
    MaskedParity(b.w2, m.w2, 129, j, 64);
    MaskedParity(b.w3, m.w3, 193, j, 64);
    MaskedParity(b.w4, m.w4, 257, j, 64);
    CodesBit(WordCodes(b.w0, 1, 64), WordCodes(b.w1, 65, 64), WordCodes(b.w2, 129, 64),
      WordCodes(b.w3, 193, 64), WordCodes(b.w4, 257, 64), j);
  }

  lemma CodesBit(c0: bv64, c1: bv64, c2: bv64, c3: bv64, c4: bv64, j: bv64)
    requires j < 64
    ensures BitSet(Xor(Xor(Xor(Xor(c0, c1), c2), c3), c4), j)
         == (BitSet(c0, j) != (BitSet(c1, j) != (BitSet(c2, j) != (BitSet(c3, j) != BitSet(c4, j)))))
  {
    hide BitSet, Xor;
    BitOfXor(c0, c1, j);
    BitOfXor(Xor(c0, c1), c2, j);
    BitOfXor(Xor(Xor(c0, c1), c2), c3, j);
    BitOfXor(Xor(Xor(Xor(c0, c1), c2), c3), c4, j);
  }

  lemma TermSmall(w: bv64, base: bv64, k: bv64)
    requires k < 64 && base <= 257
    ensures Term(w, base, k) < 512
  {
    hide BitSet;
  }

  lemma XorSmall(x: bv64, y: bv64)
    requires x < 512 && y < 512
    ensures Xor(x, y) < 512
  {
  }

  lemma {:induction false} WordCodesSmall(w: bv64, base: bv64, n: bv64)
    requires n <= 64 && base <= 257
    ensures WordCodes(w, base, n) < 512
    decreases n
  {
    hide Term, Xor;
    if n > 0 {
      WordCodesSmall(w, base, n - 1);
      TermSmall(w, base, n - 1);
      XorSmall(WordCodes(w, base, n - 1), Term(w, base, n - 1));
    }
  }

  lemma CodesSmall(b: Block)
    ensures Codes(b) < 512
  {
    hide Xor, WordCodes;
    WordCodesSmall(b.w0, 1, 64);
    WordCodesSmall(b.w1, 65, 64);
    WordCodesSmall(b.w2, 129, 64);
    WordCodesSmall(b.w3, 193, 64);
    WordCodesSmall(b.w4, 257, 64);
    var c0, c1, c2, c3 :=
      WordCodes(b.w0, 1, 64), WordCodes(b.w1, 65, 64), WordCodes(b.w2, 129, 64), WordCodes(b.w3, 193, 64);
    XorSmall(c0, c1);
    XorSmall(Xor(c0, c1), c2);
    XorSmall(Xor(Xor(c0, c1), c2), c3);
    XorSmall(Xor(Xor(Xor(c0, c1), c2), c3), WordCodes(b.w4, 257, 64));
  }

  function Bit(c: bv64, j: bv64): bv64
    requires j < 64
  {
    if BitSet(c, j) then 1 else 0
  }

  lemma PackBits(c: bv64)
    requires c < 512
    ensures Packed(Bit(c, 0), Bit(c, 1), Bit(c, 2), Bit(c, 3), Bit(c, 4), Bit(c, 5), Bit(c, 6), Bit(c, 7), Bit(c, 8))
      == c
  {
  }

  lemma LineIsBit(b: Block, j: nat, k: bv64)
    requires j < 9 && k < 64 && LineMatches(Masks(j), k)
    ensures Line(b, j) == Bit(Codes(b), k)
  {
    hide BitSet, Fold, Codes, Masks, Matches;
    FoldParity(b, Masks(j), k);
  }

  /** The nine masked parities are the exclusive or of the codes p + 1. */
  lemma SyndromeIsCodes(b: Block)
    ensures Syndrome(b) == Codes(b)
  {
    hide Line, Codes, Bit, Packed, LineMatches, Masks;
    MasksOfLine0();
    MasksOfLine1();
    MasksOfLine2();
    MasksOfLine3();
    MasksOfLine4();
    MasksOfLine5();
    MasksOfLine6();
    MasksOfLine7();
    MasksOfLine8();
    LineIsBit(b, 0, 0);
    LineIsBit(b, 1, 1);
    LineIsBit(b, 2, 2);
    LineIsBit(b, 3, 3);
    LineIsBit(b, 4, 4);
    LineIsBit(b, 5, 5);
    LineIsBit(b, 6, 6);
    LineIsBit(b, 7, 7);
    LineIsBit(b, 8, 8);
    CodesSmall(b);
    PackBits(Codes(b));
  }

  // ---- Linearity ---------------------------------------------------------

  lemma XorAssociates(a: bv64, b: bv64, c: bv64)
    ensures Xor(Xor(a, b), c) == Xor(a, Xor(b, c))
  {
  }

  lemma XorCommutes(a: bv64, b: bv64)
    ensures Xor(a, b) == Xor(b, a)
  {
  }

  lemma XorSwap(a: bv64, b: bv64, c: bv64, d: bv64)
    ensures Xor(Xor(a, b), Xor(c, d)) == Xor(Xor(a, c), Xor(b, d))
  {
    hide Xor;
    XorAssociates(a, b, Xor(c, d));
    XorAssociates(b, c, d);
    XorCommutes(b, c);
    XorAssociates(c, b, d);
    XorAssociates(a, c, Xor(b, d));
  }

  lemma XorSelf(x: bv64)
    ensures Xor(x, x) == 0 && Xor(x, 0) == x && Xor(0, x) == x
  {
  }

  lemma TermXor(x: bv64, y: bv64, base: bv64, k: bv64)
    requires k < 64
    ensures Term(Xor(x, y), base, k) == Xor(Term(x, base, k), Term(y, base, k))
  {
    hide BitSet, Xor;
    BitOfXor(x, y, k);
    XorSelf(base + k);
    XorSelf(0);
  }

  lemma {:induction false} WordCodesXor(x: bv64, y: bv64, base: bv64, n: bv64)
    requires n <= 64
    ensures WordCodes(Xor(x, y), base, n) == Xor(WordCodes(x, base, n), WordCodes(y, base, n))
    decreases n
  {
    hide Term, Xor;
    if n == 0 {
      XorSelf(0);
    } else {
      WordCodesXor(x, y, base, n - 1);
      TermXor(x, y, base, n - 1);
      XorSwap(WordCodes(x, base, n - 1), WordCodes(y, base, n - 1), Term(x, base, n - 1), Term(y, base, n - 1));
    }
  }

  function XorBlock(a: Block, b: Block): Block {
    Block(Xor(a.w0, b.w0), Xor(a.w1, b.w1), Xor(a.w2, b.w2), Xor(a.w3, b.w3), Xor(a.w4, b.w4))
  }

  /** The syndrome of an exclusive or is the exclusive or of the syndromes. */
  lemma SyndromeLinear(a: Block, b: Block)
    ensures Syndrome(XorBlock(a, b)) == Xor(Syndrome(a), Syndrome(b))
  {
    hide Syndrome, Xor, WordCodes;
    SyndromeIsCodes(a);
    SyndromeIsCodes(b);
    SyndromeIsCodes(XorBlock(a, b));
    WordCodesXor(a.w0, b.w0, 1, 64);
    WordCodesXor(a.w1, b.w1, 65, 64);
    WordCodesXor(a.w2, b.w2, 129, 64);
    WordCodesXor(a.w3, b.w3, 193, 64);
    WordCodesXor(a.w4, b.w4, 257, 64);
    var p0, p1, p2, p3, p4 := WordCodes(a.w0, 1, 64), WordCodes(a.w1, 65, 64), WordCodes(a.w2, 129, 64),
      WordCodes(a.w3, 193, 64), WordCodes(a.w4, 257, 64);
    var q0, q1, q2, q3, q4 := WordCodes(b.w0, 1, 64), WordCodes(b.w1, 65, 64), WordCodes(b.w2, 129, 64),
      WordCodes(b.w3, 193, 64), WordCodes(b.w4, 257, 64);
    XorSwap(p0, q0, p1, q1);
    XorSwap(Xor(p0, p1), Xor(q0, q1), p2, q2);
    XorSwap(Xor(Xor(p0, p1), p2), Xor(Xor(q0, q1), q2), p3, q3);
    XorSwap(Xor(Xor(Xor(p0, p1), p2), p3), Xor(Xor(Xor(q0, q1), q2), q3), p4, q4);
  }

  // ---- Flipped bits ------------------------------------------------------

  function Single(k: bv64): bv64
    requires k < 64
  {
    1 << k
  }

  lemma SingleBit(k: bv64, i: bv64)
    requires k < 64 && i < 64
    ensures BitSet(Single(k), i) <==> i == k
  {
  }

  lemma {:induction false} SingleCodes(k: bv64, base: bv64, n: bv64)
    requires k < 64 && n <= 64
    ensures WordCodes(Single(k), base, n) == if k < n then base + k else 0
    decreases n
  {
    hide BitSet, Single, Xor;
    if n > 0 {
      SingleCodes(k, base, n - 1);
      SingleBit(k, n - 1);
      XorSelf(base + k);
      XorSelf(0);
    }
  }

  lemma {:induction false} ZeroCodes(base: bv64, n: bv64)
    requires n <= 64
    ensures WordCodes(0, base, n) == 0
    decreases n
  {
    hide BitSet, Xor;
    if n > 0 {
      ZeroCodes(base, n - 1);
      ZeroBit(n - 1);
      XorSelf(0);
    }
  }

  /** One of the 320 positions: a word and a bit of it. */
  datatype Position = Position(word: nat, bit: bv64) {
    predicate Valid() {
      word < 5 && bit < 64
    }

    /** p + 1 for the bit at p = 64 word + bit. */
    function Code(): bv64
      requires Valid()
    {
      (match word case 0 => 1 case 1 => 65 case 2 => 129 case 3 => 193 case _ => 257) + bit
    }

    function AsBlock(): Block
      requires Valid()
    {
      var one := Single(bit);
      match word
      case 0 => Block(one, 0, 0, 0, 0)
      case 1 => Block(0, one, 0, 0, 0)
      case 2 => Block(0, 0, one, 0, 0)
      case 3 => Block(0, 0, 0, one, 0)
      case _ => Block(0, 0, 0, 0, one)
    }
  }

  lemma PositionSyndrome(p: Position)
    requires p.Valid()
    ensures Syndrome(p.AsBlock()) == p.Code()
  {
    hide Syndrome, Single, Xor, WordCodes;
    SyndromeIsCodes(p.AsBlock());
    ZeroCodes(1, 64);
    ZeroCodes(65, 64);
    ZeroCodes(129, 64);
    ZeroCodes(193, 64);
    ZeroCodes(257, 64);
    SingleCodes(p.bit, 1, 64);
    SingleCodes(p.bit, 65, 64);
    SingleCodes(p.bit, 129, 64);
    SingleCodes(p.bit, 193, 64);
    SingleCodes(p.bit, 257, 64);
    XorSelf(0);
    XorSelf(p.Code());
  }

  function Flip(b: Block, p: Position): Block
    requires p.Valid()
  {
    XorBlock(b, p.AsBlock())
  }

  /** A flip changes the syndrome by the code of the flipped bit. */
  lemma FlipShifts(b: Block, p: Position)
    requires p.Valid()
    ensures Syndrome(Flip(b, p)) == Xor(Syndrome(b), p.Code())
  {
    hide Syndrome, Xor;
    SyndromeLinear(b, p.AsBlock());
    PositionSyndrome(p);
  }

  lemma CodesApart(p: Position, q: Position)
    requires p.Valid() && q.Valid()
    ensures p.Code() != 0 && (p != q ==> p.Code() != q.Code())
  {
  }

  lemma XorMoves(x: bv64, c: bv64)
    requires c != 0
    ensures Xor(x, c) != x
  {
  }

  lemma XorMovesTwice(x: bv64, c: bv64, d: bv64)
    requires c != d
    ensures Xor(Xor(x, c), d) != x
  {
  }

  /** Every flip of one bit, and of two different bits, changes the syndrome. */
  lemma FlipsDetected(b: Block, p: Position, q: Position)
    requires p.Valid() && q.Valid()
    ensures Syndrome(Flip(b, p)) != Syndrome(b)
    ensures p != q ==> Syndrome(Flip(Flip(b, p), q)) != Syndrome(b)
  {
    hide Syndrome, Xor, Flip;
    FlipShifts(b, p);
    FlipShifts(Flip(b, p), q);
    CodesApart(p, q);
    XorMoves(Syndrome(b), p.Code());
    if p != q {
      XorMovesTwice(Syndrome(b), p.Code(), q.Code());
    }
  }

  lemma XorZero(x: bv64, y: bv64)
    ensures Xor(x, y) == 0 <==> x == y
  {
  }

  /** A change of the block goes unseen exactly when the codes of the changed bits cancel. */
  lemma UnseenExactly(a: Block, b: Block)
    ensures Syndrome(a) == Syndrome(b) <==> Codes(XorBlock(a, b)) == 0
  {
    hide Syndrome, Codes, Xor, XorBlock;
    SyndromeLinear(a, b);
    SyndromeIsCodes(XorBlock(a, b));
    XorZero(Syndrome(a), Syndrome(b));
  }

  lemma XorMovesThrice(x: bv64, c: bv64, d: bv64, e: bv64)
    ensures Xor(Xor(Xor(x, c), d), e) == x <==> Xor(c, d) == e
  {
    hide Xor;
    XorAssociates(x, c, d);
    XorAssociates(x, Xor(c, d), e);
    XorFixes(x, Xor(Xor(c, d), e));
    XorZero(Xor(c, d), e);
  }

  lemma XorFixes(x: bv64, y: bv64)
    ensures Xor(x, y) == x <==> y == 0
  {
  }

  /** Three flips go unseen, in any block, exactly when the code of one is the exclusive or of the others. */
  lemma ThreeFlips(b: Block, p: Position, q: Position, r: Position)
    requires p.Valid() && q.Valid() && r.Valid()
    ensures Syndrome(Flip(Flip(Flip(b, p), q), r)) == Syndrome(b) <==> Xor(p.Code(), q.Code()) == r.Code()
  {
    hide Syndrome, Xor, Flip;
    FlipShifts(b, p);
    FlipShifts(Flip(b, p), q);
    FlipShifts(Flip(Flip(b, p), q), r);
    XorMovesThrice(Syndrome(b), p.Code(), q.Code(), r.Code());
  }

  /** So two is the limit: the first three bits can be flipped unseen. */
  lemma ThreeFlipsUnseen(b: Block)
    ensures Syndrome(Flip(Flip(Flip(b, Position(0, 0)), Position(0, 1)), Position(0, 2))) == Syndrome(b)
  {
    hide Syndrome, Flip;
    ThreeFlips(b, Position(0, 0), Position(0, 1), Position(0, 2));
  }

  // ---- The 84-byte input -------------------------------------------------

  type Input = b: seq<bv8> | |b| == 84 witness seq(84, _ => 0)

  /** `u64::from_le_bytes`. */
  function FromLeBytes(b0: bv8, b1: bv8, b2: bv8, b3: bv8, b4: bv8, b5: bv8, b6: bv8, b7: bv8): bv64 {
    (b0 as bv64) | ((b1 as bv64) << 8) | ((b2 as bv64) << 16) | ((b3 as bv64) << 24)
    | ((b4 as bv64) << 32) | ((b5 as bv64) << 40) | ((b6 as bv64) << 48) | ((b7 as bv64) << 56)
  }

  function WordAt(input: Input, at: nat): bv64
    requires at + 8 <= 84
  {
    FromLeBytes(input[at], input[at + 1], input[at + 2], input[at + 3], input[at + 4],
      input[at + 5], input[at + 6], input[at + 7])
  }

  function BlockOf(input: Input): Block {
    Block(WordAt(input, 44), WordAt(input, 52), WordAt(input, 60), WordAt(input, 68), WordAt(input, 76))
  }

  function HighByte(s: bv64): bv8 {
    ((s >> 8) & 0xff) as bv8
  }

  function LowByte(s: bv64): bv8 {
    (s & 0xff) as bv8
  }

  /** The 32 bytes for an 84-byte input: its length, its identity, the syndrome, and zeros. */
  function Laid(recordId: seq<bv8>, action: bv8, s: bv64): (d: seq<bv8>)
    requires |recordId| == 5
    ensures |d| == 32 && d[..8] == [0, 0, 0, 0, 0, 0, 0, 84] && d[16..] == seq(16, _ => 0)
    ensures d[8..13] == recordId && d[13] == action && d[14] == HighByte(s) && d[15] == LowByte(s)
  {
    [0, 0, 0, 0, 0, 0, 0, 84] + recordId + [action, HighByte(s), LowByte(s)] + seq(16, _ => 0)
  }

  function Digest(input: Input): (d: seq<bv8>) {
    hide Syndrome;
    Laid(input[25..30], input[43], Syndrome(BlockOf(input)))
  }

  function ByteXor(b: bv8, m: bv8): bv8 {
    b ^ m
  }

  function Mask(r: bv8): bv8
    requires r < 8
  {
    1 << r
  }

  /** Flip bit `r` of byte `j` of word `word`, counted from byte 44. */
  function FlipBit(input: Input, word: nat, j: nat, r: bv8): Input
    requires word < 5 && j < 8 && r < 8
  {
    var at := 44 + 8 * word + j;
    input[at := ByteXor(input[at], Mask(r))]
  }

  function BitOfByte(j: nat, r: bv8): (k: bv64)
    requires j < 8 && r < 8
    ensures k < 64
  {
    (match j case 0 => 0 case 1 => 8 case 2 => 16 case 3 => 24 case 4 => 32 case 5 => 40 case 6 => 48 case _ => 56)
      + (r as bv64)
  }

  /** The change of byte `i` of a word when bit `r` of byte `j` is flipped. */
  function Change(i: nat, j: nat, r: bv8): bv8
    requires r < 8
  {
    if i == j then Mask(r) else 0
  }

  /** A word is linear in its bytes. */
  lemma WordLinear(b0: bv8, b1: bv8, b2: bv8, b3: bv8, b4: bv8, b5: bv8, b6: bv8, b7: bv8,
                   m0: bv8, m1: bv8, m2: bv8, m3: bv8, m4: bv8, m5: bv8, m6: bv8, m7: bv8)
    ensures FromLeBytes(ByteXor(b0, m0), ByteXor(b1, m1), ByteXor(b2, m2), ByteXor(b3, m3),
                        ByteXor(b4, m4), ByteXor(b5, m5), ByteXor(b6, m6), ByteXor(b7, m7))
         == Xor(FromLeBytes(b0, b1, b2, b3, b4, b5, b6, b7), FromLeBytes(m0, m1, m2, m3, m4, m5, m6, m7))
  {
  }

  /** Bit `r` of byte `j` is bit 8 j + r of the word. */
  lemma ChangedBit(j: nat, r: bv8)
    requires j < 8 && r < 8
    ensures FromLeBytes(Change(0, j, r), Change(1, j, r), Change(2, j, r), Change(3, j, r),
                        Change(4, j, r), Change(5, j, r), Change(6, j, r), Change(7, j, r)) == Single(BitOfByte(j, r))
  {
    match j
    case 0 =>
    case 1 =>
    case 2 =>
    case 3 =>
    case 4 =>
    case 5 =>
    case 6 =>
    case _ =>
  }

  lemma ByteKept(b: bv8)
    ensures ByteXor(b, 0) == b
  {
  }

  lemma ByteAfter(input: Input, word: nat, j: nat, r: bv8, i: nat)
    requires word < 5 && j < 8 && r < 8 && i < 8
    ensures FlipBit(input, word, j, r)[44 + 8 * word + i] == ByteXor(input[44 + 8 * word + i], Change(i, j, r))
  {
    hide ByteXor, Mask;
    ByteKept(input[44 + 8 * word + i]);
  }

  /** Flipping a bit of a byte flips one bit of its word. */
  lemma WordFlipped(input: Input, word: nat, j: nat, r: bv8)
    requires word < 5 && j < 8 && r < 8
    ensures var at := 44 + 8 * word;
      WordAt(FlipBit(input, word, j, r), at) == Xor(WordAt(input, at), Single(BitOfByte(j, r)))
  {
    hide FromLeBytes, Single, BitOfByte, Xor, ByteXor, Change, FlipBit;
    var at := 44 + 8 * word;
    ByteAfter(input, word, j, r, 0);
    ByteAfter(input, word, j, r, 1);
    ByteAfter(input, word, j, r, 2);
    ByteAfter(input, word, j, r, 3);
    ByteAfter(input, word, j, r, 4);
    ByteAfter(input, word, j, r, 5);
    ByteAfter(input, word, j, r, 6);
    ByteAfter(input, word, j, r, 7);
    WordLinear(input[at], input[at + 1], input[at + 2], input[at + 3],
               input[at + 4], input[at + 5], input[at + 6], input[at + 7],
               Change(0, j, r), Change(1, j, r), Change(2, j, r), Change(3, j, r),
               Change(4, j, r), Change(5, j, r), Change(6, j, r), Change(7, j, r));
    ChangedBit(j, r);
  }

  lemma OtherWordsKept(input: Input, word: nat, j: nat, r: bv8, other: nat)
    requires word < 5 && j < 8 && r < 8 && other < 5 && other != word
    ensures WordAt(FlipBit(input, word, j, r), 44 + 8 * other) == WordAt(input, 44 + 8 * other)
  {
    hide FromLeBytes, ByteXor, Mask;
  }

  function PositionOf(word: nat, j: nat, r: bv8): (p: Position)
    requires word < 5 && j < 8 && r < 8
    ensures p.Valid()
  {
    Position(word, BitOfByte(j, r))
  }

  lemma BlockFlipped(input: Input, word: nat, j: nat, r: bv8)
    requires word < 5 && j < 8 && r < 8
    ensures BlockOf(FlipBit(input, word, j, r)) == Flip(BlockOf(input), PositionOf(word, j, r))
  {
    hide FlipBit, WordAt, Single, BitOfByte, Xor;
    WordAfter(input, word, j, r, 0);
    WordAfter(input, word, j, r, 1);
    WordAfter(input, word, j, r, 2);
    WordAfter(input, word, j, r, 3);
    WordAfter(input, word, j, r, 4);
  }

  lemma WordAfter(input: Input, word: nat, j: nat, r: bv8, other: nat)
    requires word < 5 && j < 8 && r < 8 && other < 5
    ensures WordAt(FlipBit(input, word, j, r), 44 + 8 * other)
         == Xor(WordAt(input, 44 + 8 * other), if other == word then Single(BitOfByte(j, r)) else 0)
  {
    hide FlipBit, WordAt, Single, BitOfByte, Xor;
    if other == word {
      WordFlipped(input, word, j, r);
    } else {
      OtherWordsKept(input, word, j, r, other);
      XorSelf(WordAt(input, 44 + 8 * other));
    }
  }

  lemma PositionsApart(word: nat, j: nat, r: bv8, word2: nat, j2: nat, r2: bv8)
    requires word < 5 && j < 8 && r < 8 && word2 < 5 && j2 < 8 && r2 < 8
    requires PositionOf(word, j, r) == PositionOf(word2, j2, r2)
    ensures word == word2 && j == j2 && r == r2
  {
  }

  lemma SyndromeSmall(b: Block)
    ensures Syndrome(b) < 512
  {
    hide Syndrome, Xor;
    SyndromeIsCodes(b);
    CodesSmall(b);
  }

  lemma BytesOfSyndrome(s: bv64, t: bv64)
    requires s < 512 && t < 512
    ensures HighByte(s) == HighByte(t) && LowByte(s) == LowByte(t) <==> s == t
  {
  }

  /** The parts of the digest do not overlap: the bytes are equal exactly when the parts are. */
  lemma DigestParts(a: Input, b: Input)
    ensures Digest(a) == Digest(b)
       <==> a[25..30] == b[25..30] && a[43] == b[43] && Syndrome(BlockOf(a)) == Syndrome(BlockOf(b))
  {
    hide Syndrome, BlockOf, HighByte, LowByte, Laid;
    var s, t := Syndrome(BlockOf(a)), Syndrome(BlockOf(b));
    SyndromeSmall(BlockOf(a));
    SyndromeSmall(BlockOf(b));
    BytesOfSyndrome(s, t);
  }

  /**
   Two 84-byte inputs share a digest exactly when record identity and action are
   the same and the codes of the changed bits of bytes 44 to 83 cancel.
   */
  lemma DigestExactly(a: Input, b: Input)
    ensures Digest(a) == Digest(b)
       <==> a[25..30] == b[25..30] && a[43] == b[43] && Codes(XorBlock(BlockOf(a), BlockOf(b))) == 0
  {
    hide Digest, Syndrome, BlockOf, Codes, XorBlock;
    DigestParts(a, b);
    UnseenExactly(BlockOf(a), BlockOf(b));
  }

  /** So it changes with every flip of one or two different bits of these bytes. */
  lemma TamperDetected(input: Input, word: nat, j: nat, r: bv8, word2: nat, j2: nat, r2: bv8)
    requires word < 5 && j < 8 && r < 8 && word2 < 5 && j2 < 8 && r2 < 8
    ensures Digest(FlipBit(input, word, j, r)) != Digest(input)
    ensures (word, j, r) != (word2, j2, r2) ==>
      Digest(FlipBit(FlipBit(input, word, j, r), word2, j2, r2)) != Digest(input)
  {
    hide FlipBit, BlockOf, PositionOf, Syndrome, Digest;
    var p, q := PositionOf(word, j, r), PositionOf(word2, j2, r2);
    var once := FlipBit(input, word, j, r);
    var twice := FlipBit(once, word2, j2, r2);
    BlockFlipped(input, word, j, r);
    BlockFlipped(once, word2, j2, r2);
    FlipsDetected(BlockOf(input), p, q);
    DigestParts(once, input);
    DigestParts(twice, input);
    if p == q {
      PositionsApart(word, j, r, word2, j2, r2);
    }
  }
}
