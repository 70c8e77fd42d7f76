/** The probe sequence of the hash table: starting at the key, step n moves on by n * n, modulo
  * a capacity that is a power of two. It reaches every slot within twice the capacity. */
module Probing {
  import opened Powers

  /** 1 * 1 + ... + n * n: how far the sequence has moved after n steps. */
  function Squares(n: nat): nat {
    if n == 0 then 0 else Squares(n - 1) + n * n
  }

  /** (n + 1) + ... + (n + j). */
  function Sum(n: nat, j: nat): nat {
    if j == 0 then 0 else Sum(n, j - 1) + n + j
  }

  /** The slot looked at after `n` steps, computed as the loops compute it. */
  function Probe(key: nat, cap: nat, n: nat): nat
    requires cap > 0
  {
    if n == 0 then key % cap else (Probe(key, cap, n - 1) + n * n) % cap
  }

  lemma ModUnique(x: nat, q: nat, m: nat, r: nat)
    requires m > 0 && x == q * m + r && r < m
    ensures x % m == r
  {
    var d := x / m;
    assert x == d * m + x % m;
    if d > q {
      AtLeast(d - q, m);
    } else if d < q {
      AtLeast(q - d, m);
    }
  }

  lemma AtLeast(k: nat, m: nat)
    requires k >= 1
    ensures k * m >= m
  {
  }

  lemma ModSum(a: nat, b: nat, m: nat)
    requires m > 0
    ensures (a % m + b) % m == (a + b) % m
  {
    var q, s := a / m, a % m + b;
    assert a == q * m + a % m;
    var t := s / m;
    assert s == t * m + s % m;
    assert a + b == (q + t) * m + s % m;
    ModUnique(a + b, q + t, m, s % m);
  }

  lemma {:induction false} ProbeIsShift(key: nat, cap: nat, n: nat)
    requires cap > 0
    ensures Probe(key, cap, n) == (key + Squares(n)) % cap
  {
    if n != 0 {
      ProbeIsShift(key, cap, n - 1);
      ModSum(key + Squares(n - 1), n * n, cap);
    }
  }

  /** How much more the squares grow over `j` steps when they start `m` further on. */
  function Growth(n: nat, m: nat, j: nat): nat {
    2 * m * Sum(n, j) + j * (m * m)
  }

  lemma GrowthStep(n: nat, m: nat, j: nat)
    requires j > 0
    ensures Growth(n, m, j) == Growth(n, m, j - 1) + 2 * m * (n + j) + m * m
  {
    assert 2 * m * Sum(n, j) == 2 * m * Sum(n, j - 1) + 2 * m * (n + j) by { Distribute(2 * m, Sum(n, j - 1), n + j); }
    assert j * (m * m) == (j - 1) * (m * m) + m * m by { Distribute(m * m, j - 1, 1); }
  }

  lemma NoGrowth(n: nat, m: nat)
    ensures Growth(n, m, 0) == 0
  {
  }

  lemma SquaresStep(n: nat)
    requires n > 0
    ensures Squares(n) == Squares(n - 1) + n * n
  {
  }

  /** Squares further on grow faster by a multiple of twice the distance. */
  lemma {:induction false} ShiftedSquares(n: nat, m: nat, j: nat)
    ensures Squares(n + m + j) + Squares(n) == Squares(n + m) + Squares(n + j) + Growth(n, m, j)
  {
    hide Squares, Growth;
    if j == 0 {
      NoGrowth(n, m);
    } else {
      ShiftedSquares(n, m, j - 1);
      SquaresStep(n + m + j);
      SquaresStep(n + j);
      SquareOfSum(n + j, m);
      GrowthStep(n, m, j);
    }
  }

  lemma SquareOfSum(a: nat, m: nat)
    ensures (a + m) * (a + m) == a * a + 2 * m * a + m * m
  {
  }

  lemma Distribute(x: nat, y: nat, z: nat)
    ensures x * (y + z) == x * y + x * z && (y + z) * x == y * x + z * x
  {
  }

  lemma FirstTurn(n: nat)
    ensures Squares(n + 2) == Squares(n) + 1 + (n * n + 3 * n + 2) * 2
  {
  }

  lemma PowStep(k: nat)
    ensures Pow2(k + 1) == 2 * Pow2(k) && Pow2(0) == 1 && Pow2(1) == 2
  {
  }

  /** 2^(k+1) more steps shift the position by 2^k, modulo 2^(k+1). */
  lemma {:induction false} HalfTurn(n: nat, k: nat) returns (q: nat)
    ensures Squares(n + Pow2(k + 1)) == Squares(n) + Pow2(k) + q * Pow2(k + 1)
    decreases k
  {
    hide Squares, Pow2, Growth, Sum;
    PowStep(k);
    if k == 0 {
      q := n * n + 3 * n + 2;
      FirstTurn(n);
    } else {
      PowStep(k - 1);
      var h, p := Pow2(k - 1), Pow2(k);
      var q1 := HalfTurn(n, k - 1);
      ShiftedSquares(n, p, p);
      q := q1 + Sum(n, p) + h * p;
      FullGrowth(n, p);
      TwoHalfTurns(h, p, q1, Sum(n, p), Squares(n), Squares(n + p), Squares(n + p + p));
    }
  }

  lemma FullGrowth(n: nat, p: nat)
    ensures Growth(n, p, p) == 2 * p * Sum(n, p) + p * (p * p)
  {
  }

  /** Two half turns of the previous level make one of this level. */
  lemma TwoHalfTurns(h: nat, p: nat, q1: nat, s: nat, a: nat, b: nat, c: nat)
    requires p == 2 * h && b == a + h + q1 * p && c + a == b + b + 2 * p * s + p * (p * p)
    ensures c == a + p + (q1 + s + h * p) * (2 * p)
  {
  }

  lemma Twice(x: nat, p: nat)
    ensures x * (2 * p) == 2 * (x * p) && 2 * p * x == 2 * (x * p)
  {
  }

  lemma Regroup(h: nat, p: nat)
    ensures h * p * (2 * p) == 2 * h * (p * p)
  {
  }

  /** A residue modulo 2m that agrees with r modulo m is r, or is r after a shift by m. */
  lemma TwoResidues(x: nat, r: nat, m: nat)
    requires m > 0 && r < 2 * m && x % m == r % m
    ensures x % (2 * m) == r || (x + m) % (2 * m) == r
  {
    var q, s := x / m, x % m;
    var h := q / 2;
    LowResidue(r, m);
    Double(h, m);
    if q == 2 * h {
      EvenQuotient(x, h, m, s);
    } else {
      Distribute(m, 2 * h, 1);
      OddQuotient(x, h, m, s);
    }
  }

  lemma LowResidue(r: nat, m: nat)
    requires m > 0 && r < 2 * m
    ensures r == r % m || r == r % m + m
  {
    if r < m { ModUnique(r, 0, m, r); } else { ModUnique(r, 1, m, r - m); }
  }

  lemma EvenQuotient(x: nat, h: nat, m: nat, s: nat)
    requires m > 0 && s < m && x == h * (2 * m) + s
    ensures x % (2 * m) == s && (x + m) % (2 * m) == s + m
  {
    ModUnique(x, h, 2 * m, s);
    ModUnique(x + m, h, 2 * m, s + m);
  }

  lemma OddQuotient(x: nat, h: nat, m: nat, s: nat)
    requires m > 0 && s < m && x == h * (2 * m) + m + s
    ensures x % (2 * m) == s + m && (x + m) % (2 * m) == s
  {
    ModUnique(x, h, 2 * m, s + m);
    Distribute(2 * m, h, 1);
    ModUnique(x + m, h + 1, 2 * m, s);
  }

  lemma Double(h: nat, m: nat)
    ensures (2 * h) * m == h * (2 * m)
  {
  }

  lemma ModMultiple(x: nat, q: nat, m: nat)
    requires m > 0
    ensures (x + q * m) % m == x % m
  {
    var d := x / m;
    assert x == d * m + x % m;
    assert x + q * m == (d + q) * m + x % m by { assert (d + q) * m == d * m + q * m; }
    ModUnique(x + q * m, d + q, m, x % m);
  }

  /** One of two positions that are half a turn apart has the residue. */
  lemma OneOfTwo(x: nat, x': nat, m: nat, q: nat, r: nat)
    requires m > 0 && r < 2 * m && x % m == r % m && x' == x + m + q * (2 * m)
    ensures x % (2 * m) == r || x' % (2 * m) == r
  {
    TwoResidues(x, r, m);
    ModMultiple(x + m, q, 2 * m);
  }

  /** After `n` steps from `key` the sequence is at slot `r` of 2^k. */
  ghost predicate Hits(key: nat, k: nat, n: nat, r: nat) {
    (key + Squares(n)) % Pow2(k) == r
  }

  lemma HitsOneOf(key: nat, k: nat, n: nat, r: nat)
    requires r < Pow2(k + 1) && Hits(key, k, n, r % Pow2(k))
    ensures Hits(key, k + 1, n, r) || Hits(key, k + 1, n + Pow2(k + 1), r)
  {
    hide Squares, Pow2;
    PowStep(k);
    var q := HalfTurn(n, k);
    OneOfTwo(key + Squares(n), key + Squares(n + Pow2(k + 1)), Pow2(k), q, r);
  }

  lemma HitsNow(key: nat, r: nat)
    requires r < Pow2(0)
    ensures Hits(key, 0, 0, r)
  {
  }

  /** Every slot of a table of 2^k slots is probed within the first 2^(k+1) steps. */
  lemma {:induction false} CoversResidues(key: nat, k: nat, r: nat) returns (n: nat)
    requires r < Pow2(k)
    ensures n < Pow2(k + 1) && Hits(key, k, n, r)
    decreases k
  {
    hide Squares, Pow2, Hits;
    PowStep(k);
    if k == 0 {
      n := 0;
      HitsNow(key, r);
    } else {
      PowStep(k - 1);
      n := CoversResidues(key, k - 1, r % Pow2(k - 1));
      HitsOneOf(key, k - 1, n, r);
      if !Hits(key, k, n, r) {
        n := n + Pow2(k);
      }
    }
  }

  lemma ProbeCovers(key: nat, k: nat, slot: nat) returns (n: nat)
    requires slot < Pow2(k)
    ensures n < Pow2(k + 1) && Probe(key, Pow2(k), n) == slot
  {
    n := CoversResidues(key, k, slot);
    ProbeIsShift(key, Pow2(k), n);
  }
}
