/** Truncation of integers to their leading bits. */
module SignificantBits {
  import opened PotIterations

  function Pow2(n: nat): (r: nat)
    ensures r >= 1
  {
    if n == 0 then 1 else 2 * Pow2(n - 1)
  }

  /** Python's int.bit_length on a natural number. */
  function BitLength(x: nat): nat {
    if x == 0 then 0 else 1 + BitLength(x / 2)
  }

  /** Bitwise conjunction. */
  function And(x: nat, y: nat): nat {
    if x == 0 || y == 0 then 0
    else 2 * And(x / 2, y / 2) + (if x % 2 == 1 && y % 2 == 1 then 1 else 0)
  }

  function Abs(x: int): nat {
    if x < 0 then -x else x
  }

  function TruncateToSignificantBits(x: int, bits: nat): int {
    var a := Abs(x);
    if bits > BitLength(a) then x
    else
      var lower := BitLength(a) - bits;
      var mask := (Pow2(BitLength(a)) - 1) - (Pow2(lower) - 1);
      var masked: int := And(a, if mask < 0 then 0 else mask);
      if x < 0 then -masked else masked
  }

  /** `x` is a number below 2^bits shifted left. */
  ghost predicate Fits(x: nat, bits: nat) {
    exists m: nat, e: nat :: Shifted(x, bits, m, e)
  }

  ghost predicate Shifted(x: nat, bits: nat, m: nat, e: nat) {
    m < Pow2(bits) && x == m * Pow2(e)
  }

  // ----- Arithmetic of powers of two -----

  lemma {:induction false} Pow2Add(a: nat, b: nat)
    ensures Pow2(a + b) == Pow2(a) * Pow2(b)
  {
    if a > 0 {
      Pow2Add(a - 1, b);
    }
  }

  lemma {:induction false} Pow2Mono(a: nat, b: nat)
    requires a <= b
    ensures Pow2(a) <= Pow2(b)
  {
    if a < b {
      Pow2Mono(a, b - 1);
    }
  }

  lemma {:induction false} BitLengthBounds(x: nat)
    ensures x < Pow2(BitLength(x))
    ensures BitLength(x) > 0 <==> x > 0
    ensures x > 0 ==> Pow2(BitLength(x) - 1) <= x
  {
    if x > 0 {
      BitLengthBounds(x / 2);
    }
  }

  /** The lowest `n` bits. */
  function Low(x: nat, n: nat): nat {
    x % Pow2(n)
  }

  lemma LowHalves(x: nat, n: nat)
    ensures Low(x, n + 1) == 2 * Low(x / 2, n) + x % 2
  {
    var p := Pow2(n);
    var q, r := (x / 2) / p, (x / 2) % p;
    assert x / 2 == q * p + r;
    assert x == q * (2 * p) + (2 * r + x % 2) by { assert 2 * (q * p) == q * (2 * p); }
    Residue(q, 2 * p, 2 * r + x % 2);
  }

  lemma Residue(q: nat, p: nat, r: nat)
    requires r < p
    ensures (q * p + r) % p == r && (q * p + r) / p == q
  {
    var x := q * p + r;
    assert x == (x / p) * p + x % p;
    if q > x / p {
      MulMono(x / p + 1, q, p);
    } else if q < x / p {
      MulMono(q + 1, x / p, p);
    }
  }

  lemma AndDouble(x: nat, y: nat, bit: nat)
    requires bit <= 1
    ensures And(x, 2 * y + bit) == 2 * And(x / 2, y) + (if bit == 1 then x % 2 else 0)
  {
    assert (2 * y + bit) / 2 == y;
  }

  lemma LowNothing(x: nat)
    ensures Low(x, 0) == 0 && And(x, 0) == 0
  {
  }

  /** Masking with the bits from `lower` up to `n` drops the low bits. */
  lemma {:induction false} AndMask(x: nat, lower: nat, n: nat)
    requires lower <= n
    ensures Pow2(n) >= Pow2(lower)
    ensures And(x, Pow2(n) - Pow2(lower)) == Low(x, n) - Low(x, lower)
  {
    hide And;
    hide Low;
    LowNothing(x);
    Pow2Mono(lower, n);
    if n > 0 {
      LowNothing(x / 2);
      LowHalves(x, n - 1);
      if lower == 0 {
        AndMask(x / 2, 0, n - 1);
        AndDouble(x, Pow2(n - 1) - Pow2(0), 1);
      } else {
        LowHalves(x, lower - 1);
        AndMask(x / 2, lower - 1, n - 1);
        AndDouble(x, Pow2(n - 1) - Pow2(lower - 1), 0);
      }
    }
  }

  function RoundDown(x: nat, p: nat): (r: nat)
    requires p > 0
    ensures r <= x < r + p && r % p == 0
  {
    assert x == (x / p) * p + x % p;
    MulMono(0, x / p, p);
    Residue(x / p, p, 0);
    x - x % p
  }

  lemma FitsIs(x: nat, bits: nat) returns (m: nat, e: nat)
    requires Fits(x, bits)
    ensures m < Pow2(bits) && x == m * Pow2(e) && (bits == 0 ==> m == 0)
  {
    m, e :| Shifted(x, bits, m, e);
  }

  /** Rounding down to a multiple of a power of two keeps a number short. */
  lemma RoundDownFits(x: nat, bits: nat, k: nat)
    requires Fits(x, bits)
    ensures Fits(RoundDown(x, Pow2(k)), bits)
  {
    hide *;
    var m, e := FitsIs(x, bits);
    if k <= e {
      RoundHigh(m, e, k);
    } else {
      var q := RoundLow(m, e, k);
      ShiftedFits(bits, q, k);
    }
  }

  lemma RoundHigh(m: nat, e: nat, k: nat)
    requires k <= e
    ensures RoundDown(m * Pow2(e), Pow2(k)) == m * Pow2(e)
  {
    hide Pow2;
    Pow2Add(k, e - k);
    MultipleOfFactor(m * Pow2(e), m, Pow2(k), Pow2(e - k));
  }

  lemma RoundLow(m: nat, e: nat, k: nat) returns (q: nat)
    requires e < k
    ensures q <= m && RoundDown(m * Pow2(e), Pow2(k)) == q * Pow2(k)
  {
    hide Pow2;
    Pow2Add(k - e, e);
    q := RoundMultiple(m, Pow2(k - e), Pow2(e));
  }

  lemma Assoc(a: nat, b: nat, k: nat)
    ensures a * (b * k) == (a * b) * k
  {
  }

  lemma MultipleOfFactor(x: nat, m: nat, p: nat, d: nat)
    requires p > 0 && x == m * (p * d)
    ensures x == (m * d) * p && x % p == 0
  {
    Assoc(m, d, p);
    Residue(m * d, p, 0);
  }

  lemma RoundMultiple(m: nat, d: nat, p: nat) returns (q: nat)
    requires d > 0 && p > 0 && d * p > 0
    ensures q <= m && m * p - (m * p) % (d * p) == q * (d * p)
  {
    q := m / d;
    var r := m % d;
    QuotientBelow(m, d);
    assert m == q * d + r;
    Distribute(q * d, r, p);
    Assoc(q, d, p);
    MulStrict(r, d, p);
    MulMono(0, r, p);
    Residue(q, d * p, r * p);
  }

  lemma QuotientBelow(m: nat, d: nat)
    requires d > 0
    ensures m / d <= m
  {
    var q := m / d;
    assert m == q * d + m % d;
    MulMono(1, d, q);
  }

  // ----- Truncation -----

  lemma TruncateIs(x: nat, bits: nat)
    requires bits <= BitLength(x)
    ensures TruncateToSignificantBits(x, bits) == RoundDown(x, Pow2(BitLength(x) - bits))
  {
    BitLengthBounds(x);
    AndMask(x, BitLength(x) - bits, BitLength(x));
    ModSmall(x, Pow2(BitLength(x)));
  }

  /** Truncation gives the greatest number not above `x` that has at most `bits` significant bits. */
  lemma TruncateIsGreatest(x: nat, bits: nat)
    ensures 0 <= TruncateToSignificantBits(x, bits) <= x
    ensures Fits(TruncateToSignificantBits(x, bits), bits)
    ensures forall y: nat :: y <= x && Fits(y, bits) ==> y <= TruncateToSignificantBits(x, bits)
  {
    BitLengthBounds(x);
    var n := BitLength(x);
    if bits > n {
      Pow2Mono(n, bits);
      assert Shifted(x, bits, x, 0);
    } else {
      var l := n - bits;
      TruncateIs(x, bits);
      hide *;
      Pow2Add(bits, l);
      var q := QuotientFits(x, Pow2(bits), Pow2(l));
      ShiftedFits(bits, q, l);
      forall y: nat | y <= x && Fits(y, bits) ensures y <= TruncateToSignificantBits(x, bits) {
        BelowTruncation(x, y, bits);
      }
    }
  }

  lemma ShiftedFits(bits: nat, m: nat, e: nat)
    requires m < Pow2(bits)
    ensures m * Pow2(e) >= 0 && Fits(m * Pow2(e), bits)
  {
    MulMono(0, m, Pow2(e));
    hide Pow2;
    assert Shifted(m * Pow2(e), bits, m, e);
  }

  lemma QuotientFits(x: nat, b: nat, p: nat) returns (q: nat)
    requires p > 0 && x < b * p
    ensures q < b && RoundDown(x, p) == q * p
  {
    q := x / p;
    assert x == q * p + x % p;
    if q >= b {
      MulMono(b, q, p);
    }
  }

  lemma BelowTruncation(x: nat, y: nat, bits: nat)
    requires bits <= BitLength(x) && y <= x && Fits(y, bits)
    ensures y <= TruncateToSignificantBits(x, bits)
  {
    hide *;
    TruncateIs(x, bits);
    BitLengthBounds(x);
    var n, l := BitLength(x), BitLength(x) - bits;
    var m, e := FitsIs(y, bits);
    if e >= l {
      RoundHigh(m, e, l);
      MultipleBelow(x, Pow2(l), y);
    } else if bits > 0 {
      ShiftedBelow(bits, m, e);
      Pow2Mono(bits + e, n - 1);
      assert y <= Pow2(n - 1) <= x;
      RoundHigh(1, n - 1, l);
      MultipleBelow(x, Pow2(l), Pow2(n - 1));
    }
  }

  lemma ShiftedBelow(bits: nat, m: nat, e: nat)
    requires m < Pow2(bits)
    ensures m * Pow2(e) <= Pow2(bits + e)
  {
    hide Pow2;
    Pow2Add(bits, e);
    MulMono(m, Pow2(bits), Pow2(e));
  }

  lemma MultipleBelow(x: nat, p: nat, y: nat)
    requires p > 0 && RoundDown(y, p) == y && y <= x
    ensures y <= RoundDown(x, p)
  {
    var q := y / p;
    assert y == q * p;
    assert x == (x / p) * p + x % p;
    if q > x / p {
      MulMono(x / p + 1, q, p);
    } else {
      MulMono(q, x / p, p);
    }
  }

  lemma ShortIsKept(x: nat, bits: nat)
    ensures bits > BitLength(x) ==> TruncateToSignificantBits(x, bits) == x
  {
  }

  /** What truncation loses is less than one unit in the last kept place. */
  lemma TruncationError(x: nat, bits: nat)
    requires 0 < bits <= BitLength(x)
    ensures x - TruncateToSignificantBits(x, bits) < Pow2(BitLength(x) - bits)
  {
    TruncateIs(x, bits);
  }

  // ----- Counting -----

  /** The number of significant bits: the least length the number fits into. */
  method CountSignificantBits(x: nat) returns (r: nat)
    ensures forall s: nat :: Fits(x, s) <==> r <= s
  {
    var n := BitLength(x);
    BitLengthBounds(x);
    for i := 0 to n
      invariant x % Pow2(i) == 0
    {
      AndMask(x, i, i + 1);
      if And(x, Pow2(i)) > 0 {
        LowestBit(x, n, i);
        return n - i;
      }
    }
    ModSmall(x, Pow2(n));
    forall s: nat ensures Fits(x, s) {
      assert Shifted(x, s, 0, 0);
    }
    return 0;
  }

  lemma LowestBit(x: nat, n: nat, i: nat)
    requires n == BitLength(x) && i < n && x % Pow2(i) == 0 && x % Pow2(i + 1) != 0
    ensures forall s: nat :: Fits(x, s) <==> n - i <= s
  {
    hide Pow2;
    BitLengthBounds(x);
    Pow2Add(n - i, i);
    var q := QuotientFits(x, Pow2(n - i), Pow2(i));
    forall s: nat ensures Fits(x, s) <==> n - i <= s {
      if n - i <= s {
        Pow2Mono(n - i, s);
        assert Shifted(x, s, q, i);
      } else if Fits(x, s) {
        TooShort(x, n, i, s);
      }
    }
  }

  lemma TooShort(x: nat, n: nat, i: nat, s: nat)
    requires n == BitLength(x) && s < n - i && x % Pow2(i + 1) != 0
    ensures !Fits(x, s)
  {
    hide Pow2;
    BitLengthBounds(x);
    if Fits(x, s) {
      var m: nat, e: nat :| Shifted(x, s, m, e);
      if e > i {
        Pow2Add(i + 1, e - i - 1);
        MultipleOfFactor(x, m, Pow2(i + 1), Pow2(e - i - 1));
      } else {
        Pow2Add(s, e);
        MulStrict(m, Pow2(s), Pow2(e));
        Pow2Mono(s + e, n - 1);
      }
    }
  }
}
