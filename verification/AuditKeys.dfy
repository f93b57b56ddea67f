/**
 Row keys of the audit table: the index in twenty zero-padded digits.

 Byte order on these keys is numeric order on the indices, which is what lets
 one backend read the table in key order and another parse and sort the keys.
 */
module AuditKeys {
  import opened Base
  import opened Bytes
  import opened Ordering

  function Pow10(n: nat): (p: nat)
    ensures p > 0
  {
    if n == 0 then 1 else 10 * Pow10(n - 1)
  }

  /** The last `width` decimal digits of `n`, as ASCII. */
  function Digits(n: nat, width: nat): (s: seq<byte>)
    ensures |s| == width
  {
    if width == 0 then [] else Digits(n / 10, width - 1) + [48 + n % 10]
  }

  /** `format!("{:020}", i)`. */
  function Key(i: u64): (s: Text)
    ensures |s| == 20
  {
    Digits(i, 20)
  }

  predicate AllDigits(s: seq<byte>) {
    forall i | 0 <= i < |s| :: 48 <= s[i] < 58
  }

  function FromDigits(s: seq<byte>): nat
    requires AllDigits(s)
  {
    if s == [] then 0 else FromDigits(s[..|s| - 1]) * 10 + (s[|s| - 1] - 48)
  }

  /** `str::parse::<usize>`: an optional plus sign, digits, and no overflow. */
  function ParseUsize(s: seq<byte>): Option<u64> {
    var digits := if |s| > 1 && s[0] == 43 then s[1..] else s;
    if digits == [] || !AllDigits(digits) || FromDigits(digits) >= U64_LIMIT then None
    else Some(FromDigits(digits))
  }

  lemma {:induction false} DigitsRoundTrip(n: nat, width: nat)
    requires n < Pow10(width)
    ensures AllDigits(Digits(n, width)) && FromDigits(Digits(n, width)) == n
  {
    if width > 0 {
      DigitsRoundTrip(n / 10, width - 1);
      assert Digits(n, width)[..width - 1] == Digits(n / 10, width - 1);
    }
  }

  lemma U64BelowPow10(i: u64)
    ensures i < Pow10(20)
  {
    assert Pow10(10) == 100_0000_0000;
    assert Pow10(20) == 1_0000_0000_0000_0000_0000;
  }

  /** A key parses back to its index. */
  lemma KeyParses(i: u64)
    ensures ParseUsize(Key(i)) == Some(i)
  {
    U64BelowPow10(i);
    DigitsRoundTrip(i, 20);
    hide Digits;
  }

  lemma KeyInjective(i: u64, j: u64)
    requires Key(i) == Key(j)
    ensures i == j
  {
    hide Key, ParseUsize;
    KeyParses(i);
    KeyParses(j);
  }

  lemma {:induction false} LexSnoc(p: seq<byte>, x: byte, q: seq<byte>, y: byte)
    requires |p| == |q|
    ensures LexLess(p + [x], q + [y]) <==> LexLess(p, q) || (p == q && x < y)
  {
    if p == [] {
      assert !LexLess([], []) && [x][1..] == [] && [y][1..] == [];
    } else {
      assert (p + [x])[1..] == p[1..] + [x] && (q + [y])[1..] == q[1..] + [y];
      LexSnoc(p[1..], x, q[1..], y);
      assert p == [p[0]] + p[1..] && q == [q[0]] + q[1..];
    }
  }

  lemma {:induction false} DigitsOrdered(a: nat, b: nat, width: nat)
    requires a < Pow10(width) && b < Pow10(width)
    ensures LexLess(Digits(a, width), Digits(b, width)) <==> a < b
  {
    if width > 0 {
      var x, y := 48 + a % 10, 48 + b % 10;
      LexSnoc(Digits(a / 10, width - 1), x, Digits(b / 10, width - 1), y);
      DigitsOrdered(a / 10, b / 10, width - 1);
      if Digits(a / 10, width - 1) == Digits(b / 10, width - 1) {
        DigitsRoundTrip(a / 10, width - 1);
        DigitsRoundTrip(b / 10, width - 1);
      }
    }
  }

  /** Byte order on keys is numeric order on indices. */
  lemma KeyOrdered(i: u64, j: u64)
    ensures LexLess(Key(i), Key(j)) <==> i < j
  {
    U64BelowPow10(i);
    U64BelowPow10(j);
    DigitsOrdered(i, j, 20);
    hide Digits, LexLess;
  }
}
