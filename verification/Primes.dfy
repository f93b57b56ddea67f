/**
 The first 64 primes, which FIPS 180-4 takes the constants of SHA-256 from.
 */
module Primes {
  /** The first 64 prime numbers. */
  function Prime(t: nat): nat
    requires t < 64
  {
    match t
    case 0 => 2 case 1 => 3 case 2 => 5 case 3 => 7 case 4 => 11 case 5 => 13 case 6 => 17 case 7 => 19
    case 8 => 23 case 9 => 29 case 10 => 31 case 11 => 37 case 12 => 41 case 13 => 43 case 14 => 47 case 15 => 53
    case 16 => 59 case 17 => 61 case 18 => 67 case 19 => 71 case 20 => 73 case 21 => 79 case 22 => 83 case 23 => 89
    case 24 => 97 case 25 => 101 case 26 => 103 case 27 => 107
    case 28 => 109 case 29 => 113 case 30 => 127 case 31 => 131
    case 32 => 137 case 33 => 139 case 34 => 149 case 35 => 151
    case 36 => 157 case 37 => 163 case 38 => 167 case 39 => 173
    case 40 => 179 case 41 => 181 case 42 => 191 case 43 => 193
    case 44 => 197 case 45 => 199 case 46 => 211 case 47 => 223
    case 48 => 227 case 49 => 229 case 50 => 233 case 51 => 239
    case 52 => 241 case 53 => 251 case 54 => 257 case 55 => 263
    case 56 => 269 case 57 => 271 case 58 => 277 case 59 => 281
    case 60 => 283 case 61 => 293 case 62 => 307 case _ => 311
  }

  predicate Factors(d: nat, q: nat, n: nat) {
    d * q == n
  }

  ghost predicate IsPrime(n: nat) {
    n >= 2 && forall d: nat, q: nat | Factors(d, q, n) :: d == 1 || q == 1
  }

  /** A smaller prime up to 17 divides the number. */
  predicate Composite(n: nat) {
    (n % 2 == 0 && n > 2) || (n % 3 == 0 && n > 3) || (n % 5 == 0 && n > 5) || (n % 7 == 0 && n > 7)
    || (n % 11 == 0 && n > 11) || (n % 13 == 0 && n > 13) || (n % 17 == 0 && n > 17)
  }

  // ---- Every row is a prime ----------------------------------------------

  lemma NotMultiple(t: nat, e: nat, k: nat)
    requires t < 64 && e in {2, 3, 5} && e * k == Prime(t)
    ensures k == 1
  {
    match e
    case 2 =>
    case 3 =>
    case _ =>
  }

  lemma NotMultipleEither(t: nat, e: nat, k: nat)
    requires t < 64 && e in {7, 11, 13, 17} && e * k == Prime(t)
    ensures k == 1
  {
    match e
    case 7 =>
    case 11 =>
    case 13 =>
    case _ =>
  }

  lemma NoSmallFactor(t: nat, d: nat, q: nat)
    requires t < 64 && 2 <= d <= 17 && d * q == Prime(t)
    ensures q == 1
  {
    hide Prime;
    match d
    case 2 | 3 | 5 => NotMultiple(t, d, q);
    case 4 => NotMultiple(t, 2, 2 * q);
    case 6 => NotMultiple(t, 2, 3 * q);
    case 8 => NotMultiple(t, 2, 4 * q);
    case 9 => NotMultiple(t, 3, 3 * q);
    case 10 => NotMultiple(t, 2, 5 * q);
    case 12 => NotMultiple(t, 2, 6 * q);
    case 14 => NotMultiple(t, 2, 7 * q);
    case 15 => NotMultiple(t, 3, 5 * q);
    case 16 => NotMultiple(t, 2, 8 * q);
    case _ => NotMultipleEither(t, d, q);
  }

  lemma LargeFactors(d: nat, q: nat)
    requires d >= 18 && q >= 18
    ensures d * q >= 18 * 18
  {
  }

  lemma InRange(t: nat)
    requires t < 64
    ensures 2 <= Prime(t) < 18 * 18
  {
  }

  lemma RowIsPrime(t: nat)
    requires t < 64
    ensures IsPrime(Prime(t))
  {
    hide Prime;
    InRange(t);
    forall d: nat, q: nat | Factors(d, q, Prime(t))
      ensures d == 1 || q == 1
    {
      if 2 <= d <= 17 {
        NoSmallFactor(t, d, q);
      } else if 2 <= q <= 17 {
        NoSmallFactor(t, q, d);
      } else if d > 17 && q > 17 {
        LargeFactors(d, q);
      }
    }
  }

  // ---- Nothing between two rows is ---------------------------------------

  lemma Steps(t: nat)
    requires t < 63
    ensures Prime(t) < Prime(t + 1) <= Prime(t) + 14
  {
  }

  lemma Odd(t: nat)
    requires 0 < t < 64
    ensures Prime(t) % 2 == 1
  {
  }

  lemma ShortGap(t: nat, j: nat)
    requires t < 63 && j in {2, 4} && Prime(t) + j < Prime(t + 1)
    ensures Composite(Prime(t) + j)
  {
    match j
    case 2 =>
    case _ =>
  }

  lemma LongGap(t: nat, j: nat)
    requires t < 63 && j in {6, 8, 10, 12} && Prime(t) + j < Prime(t + 1)
    ensures Composite(Prime(t) + j)
  {
    match j
    case 6 =>
    case 8 =>
    case 10 =>
    case _ =>
  }

  lemma FirstRow()
    ensures Prime(0) == 2 && Prime(1) == 3
  {
  }

  lemma Between(t: nat, n: nat)
    requires t < 63 && Prime(t) < n < Prime(t + 1)
    ensures Composite(n)
  {
    hide Prime;
    InRange(t);
    Steps(t);
    FirstRow();
    if n % 2 == 1 {
      Odd(t);
      var j := n - Prime(t);
      assert j % 2 == 0 && 0 < j < 14;
      if j < 6 {
        ShortGap(t, j);
      } else {
        LongGap(t, j);
      }
    }
  }

  lemma CompositeIsNot(n: nat)
    requires Composite(n)
    ensures !IsPrime(n)
  {
    assert Factors(2, n / 2, n) || Factors(3, n / 3, n) || Factors(5, n / 5, n) || Factors(7, n / 7, n)
        || Factors(11, n / 11, n) || Factors(13, n / 13, n) || Factors(17, n / 17, n);
  }

  /** The table is the first 64 primes: it begins with 2, and after each row comes the next prime. */
  lemma PrimesInOrder(t: nat)
    requires t < 63
    ensures Prime(0) == 2 && IsPrime(Prime(t)) && IsPrime(Prime(t + 1)) && Prime(t) < Prime(t + 1)
    ensures forall n: nat | n < 2 || Prime(t) < n < Prime(t + 1) :: !IsPrime(n)
  {
    hide Prime, Composite;
    FirstRow();
    RowIsPrime(t);
    RowIsPrime(t + 1);
    Steps(t);
    forall n: nat | n < 2 || Prime(t) < n < Prime(t + 1)
      ensures !IsPrime(n)
    {
      if n >= 2 {
        Between(t, n);
        CompositeIsNot(n);
      }
    }
  }
}
