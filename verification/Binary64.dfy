/** Integers as double-precision numbers: rounding to the nearest, ties to even (IEEE 754 binary64). */
module Binary64 {
  import opened Wrappers
  import opened Bytes

  const MANTISSA := 0x20_0000_0000_0000
  const TWO_TO_64 := 0x1_0000_0000_0000_0000
  const TWO_TO_256 := TWO_TO_64 * TWO_TO_64 * TWO_TO_64 * TWO_TO_64
  /** Two to the 1024: what rounds to this or more overflows. */
  const LIMIT := TWO_TO_256 * TWO_TO_256 * TWO_TO_256 * TWO_TO_256

  /** The first power of two from `p` on of which fewer than 2^53 fit into `n`. */
  function UnitFrom(n: nat, p: nat): (u: nat)
    requires p > 0
    ensures u > 0
    decreases n - p
  {
    if n < MANTISSA * p then p else UnitFrom(n, 2 * p)
  }

  function Nearest(n: nat): nat {
    var u := UnitFrom(n, 1);
    var q, r := n / u, n % u;
    if 2 * r < u || (2 * r == u && q % 2 == 0) then q * u else (q + 1) * u
  }

  /** `strtod` on a decimal integer, before overflow. */
  function Rounded(n: int): int {
    if n < 0 then var m: int := Nearest(-n); -m else Nearest(n)
  }

  predicate Overflows(n: int) {
    Rounded(n) >= LIMIT || Rounded(n) <= -LIMIT
  }

  /** A multiple of `2^k` with at most fifty-three bits before that. */
  predicate Fits(n: nat, k: nat) {
    n % Pow2(k) == 0 && n < MANTISSA * Pow2(k)
  }

  function Abs(n: int): nat {
    if n < 0 then -n else n
  }

  ghost predicate Representable(n: int) {
    Abs(n) < LIMIT && exists k: nat :: Fits(Abs(n), k)
  }

  lemma {:induction false} Pow2Adds(a: nat, b: nat)
    ensures Pow2(a + b) == Pow2(a) * Pow2(b)
  {
    if a > 0 {
      Pow2Adds(a - 1, b);
      assert Pow2(a) * Pow2(b) == 2 * (Pow2(a - 1) * Pow2(b));
    }
  }

  /** The unit is a power of two that `n` fits, and every power that `n` fits is a multiple of it. */
  lemma {:induction false} UnitIs(n: nat, i: nat) returns (j: nat)
    ensures UnitFrom(n, Pow2(i)) == Pow2(j) && n < MANTISSA * Pow2(j)
    ensures forall k: nat :: k >= i && n < MANTISSA * Pow2(k) ==> k >= j
    decreases n - Pow2(i)
  {
    if n < MANTISSA * Pow2(i) {
      j := i;
    } else {
      assert Pow2(i + 1) == 2 * Pow2(i);
      j := UnitIs(n, i + 1);
    }
  }

  /** Rounding leaves exactly the integers of at most 53 significant bits alone. */
  lemma NearestExact(n: nat)
    ensures Nearest(n) == n <==> exists k: nat :: Fits(n, k)
  {
    hide Nearest, UnitFrom;
    assert Pow2(0) == 1;
    var j := UnitIs(n, 0);
    NearestIs(n, Pow2(j));
    assert n % Pow2(j) == 0 ==> Fits(n, j);
    forall k: nat | Fits(n, k)
      ensures n % Pow2(j) == 0
    {
      CoarserFits(n, j, k);
    }
  }

  lemma Reassociate(a: nat, b: nat, c: nat)
    ensures a * (b * c) == a * b * c
  {
  }

  lemma CoarserFits(n: nat, j: nat, k: nat)
    requires j <= k && n % Pow2(k) == 0
    ensures n % Pow2(j) == 0
  {
    hide Pow2;
    var q := n / Pow2(k);
    Pow2Adds(k - j, j);
    Reassociate(q, Pow2(k - j), Pow2(j));
    DivModUnique(n, Pow2(j), q * Pow2(k - j), 0);
  }

  lemma NearestIs(n: nat, u: nat)
    requires u > 0 && u == UnitFrom(n, 1)
    ensures Nearest(n) == n <==> n % u == 0
  {
    var q, r := n / u, n % u;
    assert n == q * u + r && (q + 1) * u == q * u + u;
  }

  lemma RoundedExact(n: int)
    ensures Rounded(n) == n && !Overflows(n) <==> Representable(n)
  {
    hide Nearest, Fits;
    NearestExact(Abs(n));
  }

  function Distance(a: nat, b: nat): nat {
    if a < b then b - a else a - b
  }

  /** No double lies strictly between the two multiples of the unit around `n`. */
  lemma NothingBetween(n: nat, u: nat, m: nat, k: nat)
    requires u == UnitFrom(n, 1) && Fits(m, k)
    ensures m <= n ==> m <= n / u * u
    ensures m > n ==> m >= (n / u + 1) * u
  {
    hide UnitFrom, Pow2;
    assert Pow2(0) == 1 by { PowZero(); }
    var j := UnitIs(n, 0);
    if k >= j {
      CoarserFits(m, j, k);
      Split(m, u);
      MultipleBounds(n, u, m / u);
    } else {
      BelowBinade(n, j, m, k);
      MultipleBounds(n, u, MANTISSA / 2);
    }
  }

  lemma PowZero()
    ensures Pow2(0) == 1
  {
  }

  lemma MultipleBounds(n: nat, u: nat, a: nat)
    requires u > 0
    ensures a * u <= n ==> a * u <= n / u * u
    ensures a * u > n ==> a * u >= (n / u + 1) * u
  {
    var q := n / u;
    assert n == q * u + n % u;
    if a <= q {
      assert (q - a) * u >= 0;
    } else {
      assert (a - q - 1) * u >= 0;
    }
  }

  /** A double with a finer unit is below the range in which `2^j` is the unit, and `n` is not. */
  lemma BelowBinade(n: nat, j: nat, m: nat, k: nat)
    requires UnitFrom(n, 1) == Pow2(j) && k < j && Fits(m, k)
    ensures m < MANTISSA / 2 * Pow2(j) <= n
  {
    assert Pow2(0) == 1;
    var i := UnitIs(n, 0);
    PowersDiffer(i, j);
    assert Pow2(j) == 2 * Pow2(j - 1);
    PowersGrow(k, j - 1);
    HalfUnit(n, Pow2(j - 1), m, Pow2(k));
  }

  lemma HalfUnit(n: nat, half: nat, m: nat, p: nat)
    requires p <= half && m < MANTISSA * p && n >= MANTISSA * half
    ensures m < MANTISSA / 2 * (2 * half) <= n
  {
  }

  lemma {:induction false} PowersGrow(k: nat, j: nat)
    requires k <= j
    ensures Pow2(k) <= Pow2(j)
  {
    if k < j {
      PowersGrow(k, j - 1);
    }
  }

  lemma {:induction false} PowersDiffer(i: nat, j: nat)
    requires Pow2(i) == Pow2(j)
    ensures i == j
  {
    if i > 0 && j > 0 {
      PowersDiffer(i - 1, j - 1);
    }
  }

  /** The number stored is a double, no double is nearer, and of two as near the one with the even digit is taken. */
  lemma RoundedNearest(n: nat, m: nat, k: nat)
    requires Fits(m, k)
    ensures Distance(Nearest(n), n) <= Distance(m, n)
    ensures m != Nearest(n) && Distance(m, n) == Distance(Nearest(n), n) ==> Nearest(n) / UnitFrom(n, 1) % 2 == 0
  {
    hide UnitFrom, Fits;
    var u := UnitFrom(n, 1);
    var q := n / u;
    NothingBetween(n, u, m, k);
    MultipleOf(q, u);
    MultipleOf(q + 1, u);
    Split(n, u);
  }

  lemma MultipleOf(q: nat, u: nat)
    requires u > 0
    ensures q * u / u == q
  {
    DivModUnique(q * u, u, q, 0);
  }

  lemma Split(n: nat, u: nat)
    requires u > 0
    ensures n == n / u * u + n % u && (n / u + 1) * u == n / u * u + u
  {
  }

  /** The first integer that rounds: 2^53 + 1 becomes 2^53. */
  lemma FirstRounded()
    ensures Rounded(MANTISSA + 1) == MANTISSA && !Representable(MANTISSA + 1) && !Overflows(MANTISSA + 1)
  {
    assert UnitFrom(MANTISSA + 1, 2) == 2;
    assert UnitFrom(MANTISSA + 1, 1) == 2;
    RoundedExact(MANTISSA + 1);
  }
}
