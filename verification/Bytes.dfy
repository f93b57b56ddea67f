/**
 Bytes, fixed-width integers and length-prefixed framing.

 Text is its UTF-8 bytes, because the engine compares, orders, hashes and
 frames text as bytes.
 */
module Bytes {

  type byte = x: int | 0 <= x < 0x100
  type u32 = x: int | 0 <= x < 0x1_0000_0000
  type u64 = x: int | 0 <= x < U64_LIMIT

  const U64_LIMIT: nat := 0x1_0000_0000_0000_0000

  /** A string or vector never holds more than `isize::MAX` bytes. */
  type Text = s: seq<byte> | |s| < 0x8000_0000_0000_0000

  /** A 32-byte array: digest, MAC, salt or key. */
  type Hash = s: seq<byte> | |s| == 32 witness seq(32, _ => 0)

  /** The hash the first audit entry points at. */
  function ZeroHash(): (h: Hash)
    ensures forall i | 0 <= i < 32 :: h[i] == 0
  {
    seq(32, _ => 0)
  }

  /** The bytes of an ASCII literal. */
  function Ascii(s: string): (b: seq<byte>)
    ensures |b| == |s|
  {
    seq(|s|, i requires 0 <= i < |s| => s[i] as int % 256)
  }

  predicate Continuation(x: byte) {
    0x80 <= x < 0xC0
  }

  /** `String::from_utf8` accepts the bytes (section 4 of RFC 3629). */
  predicate Utf8(b: seq<byte>) {
    || b == []
    || (b[0] < 0x80 && Utf8(b[1..]))
    || (|b| >= 2 && 0xC2 <= b[0] < 0xE0 && Continuation(b[1]) && Utf8(b[2..]))
    || (|b| >= 3 && 0xE0 <= b[0] < 0xF0 && Continuation(b[1]) && Continuation(b[2])
        && (b[0] == 0xE0 ==> b[1] >= 0xA0) && (b[0] == 0xED ==> b[1] < 0xA0) && Utf8(b[3..]))
    || (|b| >= 4 && 0xF0 <= b[0] < 0xF5 && Continuation(b[1]) && Continuation(b[2]) && Continuation(b[3])
        && (b[0] == 0xF0 ==> b[1] >= 0x90) && (b[0] == 0xF4 ==> b[1] < 0x90) && Utf8(b[4..]))
  }

  /** A code point that text may hold: any but the surrogates. */
  predicate Scalar(n: nat) {
    n < 0xD800 || 0xE000 <= n < 0x11_0000
  }

  /** The UTF-8 form of a code point. */
  function Utf8Of(n: nat): seq<byte>
    requires n < 0x11_0000
  {
    if n < 0x80 then [n]
    else if n < 0x800 then [0xC0 + n / 64, 0x80 + n % 64]
    else if n < 0x1_0000 then [0xE0 + n / 4096, 0x80 + n / 64 % 64, 0x80 + n % 64]
    else [0xF0 + n / 262144, 0x80 + n / 4096 % 64, 0x80 + n / 64 % 64, 0x80 + n % 64]
  }

  /** Text is accepted exactly when it is the forms of such code points one after another. */
  lemma Utf8After(n: nat, s: seq<byte>)
    requires n < 0x11_0000
    ensures Utf8(Utf8Of(n) + s) <==> Scalar(n) && Utf8(s)
  {
    var t := Utf8Of(n) + s;
    assert t[|Utf8Of(n)|..] == s;
  }

  lemma Utf8Starts(s: seq<byte>) returns (n: nat)
    requires Utf8(s) && s != []
    ensures Scalar(n) && Utf8Of(n) <= s && Utf8(s[|Utf8Of(n)|..])
  {
    if s[0] < 0x80 {
      n := s[0];
    } else if s[0] < 0xE0 {
      n := Sextets(0, 0, s[0] - 0xC0, s[1] - 0x80);
    } else if s[0] < 0xF0 {
      n := Sextets(0, s[0] - 0xE0, s[1] - 0x80, s[2] - 0x80);
    } else {
      n := Sextets(s[0] - 0xF0, s[1] - 0x80, s[2] - 0x80, s[3] - 0x80);
    }
  }

  /** Four digits of base 64 make a number and are read off it. */
  lemma Sextets(w: nat, x: nat, y: nat, z: nat) returns (n: nat)
    requires x < 64 && y < 64 && z < 64
    ensures n == w * 262144 + x * 4096 + y * 64 + z
    ensures n / 262144 == w && n / 4096 == w * 64 + x && n / 64 == w * 4096 + x * 64 + y
    ensures n / 4096 % 64 == x && n / 64 % 64 == y && n % 64 == z
  {
    n := w * 262144 + x * 4096 + y * 64 + z;
  }

  function Pow256(n: nat): (p: nat)
    ensures p > 0
  {
    if n == 0 then 1 else 256 * Pow256(n - 1)
  }

  /** `to_be_bytes` of an integer of `width` bytes. */
  function BigEndian(n: nat, width: nat): (b: seq<byte>)
    ensures |b| == width
  {
    if width == 0 then [] else BigEndian(n / 256, width - 1) + [n % 256]
  }

  /** `to_le_bytes` of an integer of `width` bytes. */
  function LittleEndian(n: nat, width: nat): (b: seq<byte>)
    ensures |b| == width
  {
    if width == 0 then [] else [n % 256] + LittleEndian(n / 256, width - 1)
  }

  /** `from_be_bytes`. */
  function FromBigEndian(b: seq<byte>): (n: nat)
    ensures n < Pow256(|b|)
  {
    if b == [] then 0 else FromBigEndian(b[..|b| - 1]) * 256 + b[|b| - 1]
  }

  /** `from_le_bytes`. */
  function FromLittleEndian(b: seq<byte>): (n: nat)
    ensures n < Pow256(|b|)
  {
    if b == [] then 0 else b[0] + 256 * FromLittleEndian(b[1..])
  }

  lemma {:induction false} BigEndianRoundTrip(n: nat, width: nat)
    requires n < Pow256(width)
    ensures FromBigEndian(BigEndian(n, width)) == n
  {
    if width > 0 {
      BigEndianRoundTrip(n / 256, width - 1);
      assert BigEndian(n, width)[..width - 1] == BigEndian(n / 256, width - 1);
    }
  }

  lemma {:induction false} LittleEndianRoundTrip(n: nat, width: nat)
    requires n < Pow256(width)
    ensures FromLittleEndian(LittleEndian(n, width)) == n
  {
    if width > 0 {
      LittleEndianRoundTrip(n / 256, width - 1);
      assert LittleEndian(n, width)[1..] == LittleEndian(n / 256, width - 1);
    }
  }

  lemma {:induction false} FromLittleEndianRoundTrip(b: seq<byte>)
    ensures LittleEndian(FromLittleEndian(b), |b|) == b
  {
    if b != [] {
      FromLittleEndianRoundTrip(b[1..]);
      assert FromLittleEndian(b) / 256 == FromLittleEndian(b[1..]);
      assert b == [b[0]] + b[1..];
    }
  }

  lemma BigEndianInjective(a: nat, b: nat, width: nat)
    requires a < Pow256(width) && b < Pow256(width)
    requires BigEndian(a, width) == BigEndian(b, width)
    ensures a == b
  {
    BigEndianRoundTrip(a, width);
    BigEndianRoundTrip(b, width);
  }

  function U64Be(n: u64): (b: seq<byte>)
    ensures |b| == 8
  {
    BigEndian(n, 8)
  }

  lemma U64BeInjective(a: u64, b: u64)
    requires U64Be(a) == U64Be(b)
    ensures a == b
  {
    assert Pow256(8) == U64_LIMIT;
    BigEndianInjective(a, b, 8);
  }

  /** `u64::from_le_bytes`. */
  function ReadU64(b: seq<byte>): u64
    requires |b| == 8
  {
    assert Pow256(8) == U64_LIMIT;
    FromLittleEndian(b)
  }

  /** `u32::from_le_bytes`. */
  function ReadU32(b: seq<byte>): u32
    requires |b| == 4
  {
    assert Pow256(4) == 0x1_0000_0000;
    FromLittleEndian(b)
  }

  lemma U64ReadsBack(n: u64)
    ensures ReadU64(LittleEndian(n, 8)) == n
  {
    assert Pow256(8) == U64_LIMIT;
    LittleEndianRoundTrip(n, 8);
  }

  lemma U32ReadsBack(n: u32)
    ensures ReadU32(LittleEndian(n, 4)) == n
  {
    assert Pow256(4) == 0x1_0000_0000;
    LittleEndianRoundTrip(n, 4);
  }

  lemma U64Rewritten(b: seq<byte>)
    requires |b| == 8
    ensures LittleEndian(ReadU64(b), 8) == b
  {
    FromLittleEndianRoundTrip(b);
  }

  lemma U32Rewritten(b: seq<byte>)
    requires |b| == 4
    ensures LittleEndian(ReadU32(b), 4) == b
  {
    FromLittleEndianRoundTrip(b);
  }

  lemma ConcatCancel<T>(a: seq<T>, x: seq<T>, b: seq<T>, y: seq<T>)
    requires a + x == b + y && |a| == |b|
    ensures a == b && x == y
  {
    assert a == (a + x)[..|a|] && b == (b + y)[..|b|];
    assert x == (a + x)[|a|..] && y == (b + y)[|b|..];
  }

  lemma ConcatAssociates<T>(a: seq<T>, b: seq<T>, c: seq<T>)
    ensures (a + b) + c == a + (b + c)
  {
  }

  /** `len() as u64` in eight big-endian bytes, followed by the bytes. */
  function Framed(s: seq<byte>): (b: seq<byte>)
    ensures |b| == 8 + |s|
  {
    U64Be(|s| % U64_LIMIT) + s
  }

  /** Framing is self-delimiting: whatever follows, the text is recovered. */
  lemma FramedInjective(s: Text, x: seq<byte>, t: Text, y: seq<byte>)
    requires Framed(s) + x == Framed(t) + y
    ensures s == t && x == y
  {
    hide U64Be;
    assert U64Be(|s|) + (s + x) == Framed(s) + x;
    assert U64Be(|t|) + (t + y) == Framed(t) + y;
    ConcatCancel(U64Be(|s|), s + x, U64Be(|t|), t + y);
    U64BeInjective(|s|, |t|);
    ConcatCancel(s, x, t, y);
  }

  /** `copy_from_slice` at an offset of a fixed-size buffer. */
  method CopyInto(out: array<byte>, at: nat, bytes: seq<byte>)
    requires at + |bytes| <= out.Length
    modifies out
    ensures out[..] == old(out[..at]) + bytes + old(out[at + |bytes|..])
  {
    for i := 0 to |bytes|
      invariant forall j | 0 <= j < at :: out[j] == old(out[j])
      invariant forall j | 0 <= j < i :: out[at + j] == bytes[j]
      invariant forall j | at + i <= j < out.Length :: out[j] == old(out[j])
    {
      out[at + i] := bytes[i];
    }
  }

  /** The byte of weight 256 to the i. */
  function Digit256(n: nat, i: nat): byte {
    if i == 0 then n % 256 else Digit256(n / 256, i - 1)
  }

  /** The least significant byte comes first, or last. */
  lemma {:induction false} EndianAt(n: nat, width: nat, i: nat)
    requires i < width
    ensures LittleEndian(n, width)[i] == BigEndian(n, width)[width - 1 - i] == Digit256(n, i)
    decreases width
  {
    if i > 0 {
      EndianAt(n / 256, width - 1, i - 1);
    }
  }
}
