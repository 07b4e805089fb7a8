/** The arithmetic behind the hash table: square-and-multiply, Fermat's little theorem,
    Euclid's lemma, and the two counting facts the table needs of a prime size. */
module NumberTheory {

  predicate Divides(d: int, n: int)
    requires d != 0
  {
    n % d == 0
  }

  predicate IsPrime(n: int) {
    2 <= n && forall m :: 2 <= m < n ==> !Divides(m, n)
  }

  function Pow(b: int, e: nat): int {
    if e == 0 then 1 else b * Pow(b, e - 1)
  }

  ghost function Factorial(n: nat): (f: nat)
    ensures 1 <= f
  {
    if n == 0 then 1 else n * Factorial(n - 1)
  }

  // ---------------------------------------------------------------- congruences

  lemma SmallMultipleIsZero(m: int, d: int)
    requires 0 < m && -m < m * d < m
    ensures d == 0
  {
  }

  lemma QuotientIsUnique(x: int, m: int, q: int, r: int)
    requires 0 < m && 0 <= r < m && x == m * q + r
    ensures x % m == r && x / m == q
  {
    var d := q - x / m;
    assert m * d == x % m - r by {
      assert m * d == m * q - m * (x / m);
    }
    SmallMultipleIsZero(m, d);
  }

  lemma MultipleIsDivisible(m: int, q: int)
    requires 0 < m
    ensures (m * q) % m == 0 && (q * m) % m == 0
  {
    QuotientIsUnique(m * q, m, q, 0);
  }

  lemma AddMultiple(x: int, m: int, q: int)
    requires 0 < m
    ensures (x + m * q) % m == x % m
  {
    assert x + m * q == m * (x / m + q) + x % m by {
      assert m * (x / m + q) == m * (x / m) + m * q;
    }
    QuotientIsUnique(x + m * q, m, x / m + q, x % m);
  }

  /** Congruent numbers are exactly those whose difference the modulus divides. */
  lemma CongruentIffDifference(x: int, y: int, m: int)
    requires 0 < m
    ensures x % m == y % m <==> (x - y) % m == 0
  {
    if x % m == y % m {
      assert x - y == m * (x / m - y / m) by {
        assert m * (x / m - y / m) == m * (x / m) - m * (y / m);
      }
      MultipleIsDivisible(m, x / m - y / m);
    }
    if (x - y) % m == 0 {
      assert x == y + m * ((x - y) / m);
      AddMultiple(y, m, (x - y) / m);
    }
  }

  lemma CongruentProducts(x: int, x': int, y: int, y': int, m: int)
    requires 0 < m && x % m == x' % m && y % m == y' % m
    ensures (x * y) % m == (x' * y') % m
  {
    CongruentIffDifference(x, x', m);
    CongruentIffDifference(y, y', m);
    var i, j := (x - x') / m, (y - y') / m;
    assert x == x' + m * i && y == y' + m * j;
    assert x * y == x' * y' + m * (i * y + x' * j) by {
      assert x * y == x' * y + (m * i) * y;
      assert x' * y == x' * y' + x' * (m * j);
      assert m * (i * y + x' * j) == (m * i) * y + x' * (m * j);
    }
    AddMultiple(x' * y', m, i * y + x' * j);
  }

  lemma {:induction false} CongruentPowers(x: int, y: int, e: nat, m: int)
    requires 0 < m && x % m == y % m
    ensures Pow(x, e) % m == Pow(y, e) % m
  {
    if e > 0 {
      CongruentPowers(x, y, e - 1, m);
      CongruentProducts(x, y, Pow(x, e - 1), Pow(y, e - 1), m);
    }
  }

  /** Squaring the base halves the exponent: the step of the square-and-multiply loop. */
  lemma {:induction false} PowSquare(b: int, n: nat)
    ensures Pow(b, 2 * n) == Pow(b * b, n)
  {
    if n > 0 {
      PowSquare(b, n - 1);
      assert Pow(b, 2 * n) == b * (b * Pow(b, 2 * (n - 1)));
      assert b * (b * Pow(b, 2 * (n - 1))) == b * b * Pow(b, 2 * (n - 1));
    }
  }

  // ---------------------------------------------------------------- primes

  lemma RemainderKeepsMultiple(p: int, i: int, a: int)
    requires 0 < p && 0 < i && (i * a) % p == 0
    ensures ((p % i) * a) % p == 0
  {
    var q, k := p / i, (i * a) / p;
    assert i * a == p * k;
    calc {
      (p % i) * a;
      (p - i * q) * a;
      p * a - q * (i * a);
      p * a - q * (p * k);
      p * (a - q * k);
    }
    MultipleIsDivisible(p, a - q * k);
  }

  /** Below a prime p, no multiple i*a of a number a that p does not divide is divisible by p. */
  lemma {:induction false} PrimeDividesNoSmallMultiple(p: int, a: int, i: int)
    requires IsPrime(p) && a % p != 0 && 1 <= i < p
    ensures (i * a) % p != 0
    decreases i
  {
    if i == 1 {
      assert i * a == a;
    } else {
      assert !Divides(i, p);
      PrimeDividesNoSmallMultiple(p, a, p % i);
      if (i * a) % p == 0 {
        RemainderKeepsMultiple(p, i, a);
        assert false;
      }
    }
  }

  lemma SmallNumberNotDivisible(n: int, m: int)
    requires 0 < n < m
    ensures n % m != 0
  {
  }

  lemma LeastResidue(x: int, m: int) returns (r: int)
    requires 0 < m
    ensures 0 <= r < m && r % m == x % m
    ensures x % m != 0 ==> r != 0
  {
    r := x % m;
  }

  /** Euclid's lemma. */
  lemma EuclidsLemma(p: int, x: int, y: int)
    requires IsPrime(p) && x % p != 0 && y % p != 0
    ensures (x * y) % p != 0
  {
    var r := LeastResidue(x, p);
    PrimeDividesNoSmallMultiple(p, y, r);
    CongruentProducts(x, r, y, y, p);
  }

  lemma {:induction false} PrimeDividesNoFactorial(p: int, n: nat)
    requires IsPrime(p) && n < p
    ensures Factorial(n) % p != 0
  {
    if n > 0 {
      PrimeDividesNoFactorial(p, n - 1);
      SmallNumberNotDivisible(n, p);
      EuclidsLemma(p, n, Factorial(n - 1));
    }
  }

  lemma {:induction false} SmallNumbersDivideFactorial(d: int, n: nat)
    requires 1 <= d <= n
    ensures Factorial(n) % d == 0
  {
    if d == n {
      MultipleIsDivisible(n, Factorial(n - 1));
    } else {
      SmallNumbersDivideFactorial(d, n - 1);
      CongruentProducts(n, n, Factorial(n - 1), 0, d);
    }
  }

  lemma {:induction false} HasPrimeFactor(n: int) returns (p: int)
    requires 2 <= n
    ensures IsPrime(p) && p <= n && n % p == 0
    decreases n
  {
    if IsPrime(n) {
      p := n;
    } else {
      var m :| 2 <= m < n && Divides(m, n);
      p := HasPrimeFactor(m);
      var i, j := n / m, m / p;
      assert n == p * (j * i) by {
        assert n == m * i && m == p * j;
      }
      MultipleIsDivisible(p, j * i);
    }
  }

  /** There is a prime above every bound, which is why the search for a table size ends. */
  lemma PrimesAreUnbounded(n: nat) returns (p: int)
    ensures IsPrime(p) && n < p
  {
    p := HasPrimeFactor(Factorial(n) + 1);
    if p <= n {
      SmallNumbersDivideFactorial(p, n);
      CongruentIffDifference(Factorial(n) + 1, Factorial(n), p);
      assert false;
    }
  }

  lemma PrimeAboveTwoIsOdd(p: int)
    requires IsPrime(p) && 2 < p
    ensures p % 2 == 1
  {
    assert !Divides(2, p);
  }

  // ---------------------------------------------------------------- Fermat's little theorem

  /** The product of the members of s between 1 and n. */
  ghost function ProductUpTo(s: set<int>, n: nat): int {
    if n == 0 then 1 else (if n in s then n else 1) * ProductUpTo(s, n - 1)
  }

  /** The residues of a, 2a, ..., na modulo p. */
  ghost function Residues(a: int, p: int, n: nat): set<int>
    requires 0 < p
  {
    if n == 0 then {} else Residues(a, p, n - 1) + {(n * a) % p}
  }

  lemma {:induction false} ProductWithNewMember(s: set<int>, x: int, n: nat)
    requires x !in s
    ensures ProductUpTo(s + {x}, n) == if 1 <= x <= n then x * ProductUpTo(s, n) else ProductUpTo(s, n)
  {
    if n > 0 {
      ProductWithNewMember(s, x, n - 1);
      ProductStep(s, n);
      ProductStep(s + {x}, n);
      SwapFactors(n, x, ProductUpTo(s, n - 1));
      hide ProductUpTo;
    }
  }

  lemma ProductStep(s: set<int>, n: nat)
    requires n > 0
    ensures ProductUpTo(s, n) == if n in s then n * ProductUpTo(s, n - 1) else ProductUpTo(s, n - 1)
  {
  }

  lemma SwapFactors(a: int, b: int, c: int)
    ensures a * (b * c) == b * (a * c)
  {
  }

  lemma {:induction false} ProductOfAll(s: set<int>, n: nat)
    requires forall i :: 1 <= i <= n ==> i in s
    ensures ProductUpTo(s, n) == Factorial(n)
  {
    if n > 0 {
      ProductOfAll(s, n - 1);
    }
  }

  /** Distinct multipliers below p give distinct residues. */
  lemma ResiduesDiffer(a: int, p: int, i: int, j: int)
    requires IsPrime(p) && a % p != 0 && 0 <= i < j < p
    ensures (i * a) % p != (j * a) % p
  {
    PrimeDividesNoSmallMultiple(p, a, j - i);
    assert j * a - i * a == (j - i) * a;
    CongruentIffDifference(j * a, i * a, p);
  }

  /** The first n residues are n different numbers between 1 and p - 1. */
  lemma {:induction false} ResiduesOfPrime(a: int, p: int, n: nat)
    requires IsPrime(p) && a % p != 0 && n < p
    ensures |Residues(a, p, n)| == n
    ensures forall r :: r in Residues(a, p, n) ==> 1 <= r < p && exists i :: 1 <= i < n + 1 && r == Residue(i, a, p)
  {
    if n > 0 {
      ResiduesOfPrime(a, p, n - 1);
      var s, r := Residues(a, p, n - 1), Residue(n, a, p);
      NewResidue(a, p, n, s);
      PrimeDividesNoSmallMultiple(p, a, n);
      forall x | x in Residues(a, p, n)
        ensures 1 <= x < p && exists i :: 1 <= i < n + 1 && x == Residue(i, a, p)
      {
        if x in s {
          var i :| 1 <= i < n && x == Residue(i, a, p);
          assert 1 <= i < n + 1;
        } else {
          assert x == Residue(n, a, p);
        }
      }
    }
  }

  lemma NewResidue(a: int, p: int, n: nat, s: set<int>)
    requires IsPrime(p) && a % p != 0 && 1 <= n < p
    requires forall r :: r in s ==> exists i :: 1 <= i < n && r == Residue(i, a, p)
    ensures Residue(n, a, p) !in s
  {
    if Residue(n, a, p) in s {
      var i :| 1 <= i < n && Residue(n, a, p) == Residue(i, a, p);
      ResiduesDiffer(a, p, i, n);
      assert false;
    }
  }

  /** Modulo p the product of the residues is a^n n!. */
  lemma {:induction false} ProductOfResidues(a: int, p: int, n: nat)
    requires IsPrime(p) && a % p != 0 && n < p
    ensures ProductUpTo(Residues(a, p, n), p - 1) % p == (Pow(a, n) * Factorial(n)) % p
  {
    if n == 0 {
      ProductOfNone({}, p - 1);
    } else {
      ResiduesOfPrime(a, p, n);
      ResiduesOfPrime(a, p, n - 1);
      ProductOfResidues(a, p, n - 1);
      var s, r := Residues(a, p, n - 1), Residue(n, a, p);
      NewResidue(a, p, n, s);
      assert r in Residues(a, p, n);
      ProductWithNewMember(s, r, p - 1);
      LastResidueInProduct(a, p, n, r, ProductUpTo(s, p - 1));
    }
  }

  lemma LastResidueInProduct(a: int, p: int, n: nat, r: int, w: int)
    requires 0 < p && 1 <= n && r == Residue(n, a, p)
    requires w % p == (Pow(a, n - 1) * Factorial(n - 1)) % p
    ensures (r * w) % p == (Pow(a, n) * Factorial(n)) % p
  {
    var x, f := Pow(a, n - 1), Factorial(n - 1);
    ModOfMod(n * a, p);
    CongruentProducts(r, n * a, w, x * f, p);
    Regroup(n, a, x, f);
  }

  lemma ModOfMod(x: int, m: int)
    requires 0 < m
    ensures (x % m) % m == x % m
  {
  }

  lemma Regroup(n: int, a: int, x: int, f: int)
    ensures (n * a) * (x * f) == (a * x) * (n * f)
  {
    calc {
      (n * a) * (x * f);
      n * (a * (x * f));
      n * ((a * x) * f);
      (a * x) * (n * f);
    }
  }

  ghost function Residue(i: int, a: int, p: int): int
    requires 0 < p
  {
    (i * a) % p
  }

  lemma {:induction false} ProductOfNone(s: set<int>, n: nat)
    requires s == {}
    ensures ProductUpTo(s, n) == 1
  {
    if n > 0 {
      ProductOfNone(s, n - 1);
    }
  }

  ghost function Interval(lo: int, hi: int): set<int>
    decreases hi - lo
  {
    if lo < hi then Interval(lo, hi - 1) + {hi - 1} else {}
  }

  lemma {:induction false} IntervalContents(lo: int, hi: int)
    requires lo <= hi
    ensures |Interval(lo, hi)| == hi - lo
    ensures forall i :: i in Interval(lo, hi) <==> lo <= i < hi
    decreases hi - lo
  {
    if lo < hi {
      IntervalContents(lo, hi - 1);
    }
  }

  lemma SameSizeSubset(s: set<int>, t: set<int>)
    requires s <= t && |s| == |t|
    ensures s == t
  {
    assert t == s + (t - s);
    assert |t - s| == 0;
  }

  /** Pigeonhole: hi - lo different numbers from lo to hi - 1 are all of them. */
  lemma FullRange(s: set<int>, lo: int, hi: int)
    requires lo <= hi && |s| == hi - lo
    requires forall x :: x in s ==> lo <= x < hi
    ensures forall i :: lo <= i < hi ==> i in s
  {
    var t := Interval(lo, hi);
    IntervalContents(lo, hi);
    forall x | x in s
      ensures x in t
    {
    }
    SameSizeSubset(s, t);
  }

  lemma ResiduesBounded(a: int, p: int, n: nat)
    requires IsPrime(p) && a % p != 0 && n < p
    ensures |Residues(a, p, n)| == n
    ensures forall r :: r in Residues(a, p, n) ==> 1 <= r < p
  {
    ResiduesOfPrime(a, p, n);
  }

  /** Fermat's little theorem: a number that p does not divide passes the Fermat test for a prime p. */
  lemma FermatsLittleTheorem(a: int, p: int)
    requires IsPrime(p) && a % p != 0
    ensures Pow(a, p - 1) % p == 1
  {
    ProductOfResidues(a, p, p - 1);
    var s := Residues(a, p, p - 1);
    ResiduesBounded(a, p, p - 1);
    FullRange(s, 1, p);
    ProductOfAll(s, p - 1);
    PrimeDividesNoFactorial(p, p - 1);
    CancelFactor(p, Pow(a, p - 1), Factorial(p - 1));
  }

  lemma CancelFactor(p: int, w: int, f: int)
    requires IsPrime(p) && f % p != 0 && (w * f) % p == f % p
    ensures w % p == 1
  {
    CongruentIffDifference(w * f, f, p);
    assert (w - 1) * f == w * f - f;
    if (w - 1) % p != 0 {
      EuclidsLemma(p, w - 1, f);
      assert false;
    }
    CongruentIffDifference(w, 1, p);
    OneModulo(p);
  }

  lemma OneModulo(p: int)
    requires 2 <= p
    ensures 1 % p == 1
  {
  }

  /** A base that shares a factor with the candidate fails the Fermat test. */
  lemma SharedFactorFailsTest(d: int, n: int, e: nat)
    requires 2 <= d <= n && n % d == 0 && 1 <= e
    ensures Pow(d, e) % n != 1
  {
    if Pow(d, e) % n == 1 {
      var k, j := Pow(d, e) / n, n / d;
      assert Pow(d, e) == d * Pow(d, e - 1);
      assert 1 == d * (Pow(d, e - 1) - j * k) by {
        assert n * k == d * (j * k);
      }
      MultipleIsDivisible(d, Pow(d, e - 1) - j * k);
    }
  }

  // ---------------------------------------------------------------- probe sequences

  /** The i-th slot that double hashing looks at. */
  function Probe(start: int, step: int, size: int, i: nat): int
    requires 0 < size
  {
    if i == 0 then start % size else (Probe(start, step, size, i - 1) + step) % size
  }

  /** The same without going through the slots before it. */
  lemma {:induction false} ProbeIs(start: int, step: int, size: int, i: nat)
    requires 0 < size
    ensures Probe(start, step, size, i) == (start + i * step) % size
  {
    if i > 0 {
      assert Probe(start, step, size, i) == (Probe(start, step, size, i - 1) + step) % size;
      hide Probe;
      ProbeIs(start, step, size, i - 1);
      OneStepOn(start, step, size, i);
    }
  }

  lemma {:induction false} OneStepOn(start: int, step: int, size: int, i: nat)
    requires 0 < size && i > 0
    ensures ((start + (i - 1) * step) % size + step) % size == (start + i * step) % size
  {
    var x := start + (i - 1) * step;
    assert x + step == start + i * step;
    assert x == size * (x / size) + x % size;
    AddMultiple(x % size + step, size, x / size);
  }

  lemma ProbesDiffer(start: int, step: int, size: int, i: nat, j: nat)
    requires IsPrime(size) && 1 <= step < size && i < j < size
    ensures Probe(start, step, size, i) != Probe(start, step, size, j)
  {
    hide *;
    ProbeIs(start, step, size, i);
    ProbeIs(start, step, size, j);
    MultiplesDiffer(start, step, size, i, j);
  }

  lemma {:induction false} MultiplesDiffer(start: int, step: int, size: int, i: nat, j: nat)
    requires IsPrime(size) && 1 <= step < size && i < j < size
    ensures (start + i * step) % size != (start + j * step) % size
  {
    assert step % size != 0;
    PrimeDividesNoSmallMultiple(size, step, j - i);
    var x, y := start + j * step, start + i * step;
    ProbeDistance(start, step, i, j);
    hide IsPrime;
    CongruentIffDifference(x, y, size);
  }

  lemma ProbeDistance(start: int, step: int, i: nat, j: nat)
    ensures start + j * step - (start + i * step) == (j - i) * step
  {
  }

  ghost function ProbedSlots(start: int, step: int, size: int, n: nat): set<int>
    requires 0 < size
  {
    if n == 0 then {} else ProbedSlots(start, step, size, n - 1) + {Probe(start, step, size, n - 1)}
  }

  /** One of the first n probes meets the slot. */
  ghost predicate IsProbed(start: int, step: int, size: int, n: nat, slot: int)
    requires 0 < size
  {
    0 <= slot < size && exists i: nat :: i < n && Probe(start, step, size, i) == slot
  }

  lemma {:induction false} NextIsNew(start: int, step: int, size: int, n: nat)
    requires IsPrime(size) && 1 <= step < size && n < size
    ensures var x := Probe(start, step, size, n);
            !IsProbed(start, step, size, n, x) && IsProbed(start, step, size, n + 1, x)
  {
    var x := Probe(start, step, size, n);
    hide IsPrime;
    if IsProbed(start, step, size, n, x) {
      var i: nat :| i < n && Probe(start, step, size, i) == x;
      ProbesDiffer(start, step, size, i, n);
    }
  }

  lemma {:induction false} StaysProbed(start: int, step: int, size: int, n: nat, slot: int)
    requires 0 < size && IsProbed(start, step, size, n, slot)
    ensures IsProbed(start, step, size, n + 1, slot)
  {
    var i: nat :| i < n && Probe(start, step, size, i) == slot;
    assert i < n + 1;
  }

  lemma {:induction false} ProbedSlotsAreProbed(start: int, step: int, size: int, n: nat)
    requires IsPrime(size) && 1 <= step < size && n <= size
    ensures |ProbedSlots(start, step, size, n)| == n
    ensures forall x :: x in ProbedSlots(start, step, size, n) ==> IsProbed(start, step, size, n, x)
  {
    hide IsPrime, IsProbed;
    if n > 0 {
      ProbedSlotsAreProbed(start, step, size, n - 1);
      NextIsNew(start, step, size, n - 1);
      var s := ProbedSlots(start, step, size, n - 1);
      forall x | x in s
        ensures IsProbed(start, step, size, n, x)
      {
        StaysProbed(start, step, size, n - 1, x);
      }
      assert ProbedSlots(start, step, size, n) == s + {Probe(start, step, size, n - 1)};
    }
  }

  /** With a prime size the probes of a key visit every slot. With ProbesDiffer: each exactly once. */
  lemma ProbesCoverTable(start: int, step: int, size: int, slot: int)
    requires IsPrime(size) && 1 <= step < size && 0 <= slot < size
    ensures exists i: nat :: i < size && Probe(start, step, size, i) == slot
  {
    var s := ProbedSlots(start, step, size, size);
    ProbedSlotsAreProbed(start, step, size, size);
    ProbedSlotsBounded(start, step, size);
    FullRange(s, 0, size);
    assert slot in s;
    assert IsProbed(start, step, size, size, slot);
  }

  lemma ProbedSlotsBounded(start: int, step: int, size: int)
    requires IsPrime(size) && 1 <= step < size
    ensures |ProbedSlots(start, step, size, size)| == size
    ensures forall x :: x in ProbedSlots(start, step, size, size) ==> 0 <= x < size
  {
    ProbedSlotsAreProbed(start, step, size, size);
  }
}
