/** src/hashmap.c: an open-addressing table with double hashing and tombstones that grows to a
    prime found by a randomised Fermat test. */
module HashMaps {
  import opened NumberTheory
  import opened Shared

  const TABLE_STARTSIZE := 1021
  const TRIALS := 9

  // ---------------------------------------------------------------- the search for a prime

  predicate PassesFermat(val: int, bases: seq<int>)
    requires 2 <= val
  {
    forall i :: 0 <= i < |bases| ==> Pow(bases[i], val - 1) % val == 1
  }

  /** A composite number that the test accepts. */
  predicate Fools(val: int, bases: seq<int>)
    requires 2 <= val
  {
    !IsPrime(val) && PassesFermat(val, bases)
  }

  predicate InRange(val: int, bases: seq<int>) {
    |bases| == TRIALS &&
    forall i :: 0 <= i < TRIALS ==> 2 <= bases[i] <= if val == 3 then 2 else val - 3
  }

  /** The bases drawn with rand(). They are arbitrary, except that a composite number gets past the
      test at most "lies" more times: without some such bound the table may grow for ever. */
  class Random {
    var lies: nat

    constructor (lies: nat)
      ensures this.lies == lies
    {
      this.lies := lies;
    }

    method Draw(val: int) returns (bases: seq<int>)
      requires val == 3 || 5 <= val
      modifies this
      ensures InRange(val, bases)
      ensures if Fools(val, bases) then lies == old(lies) - 1 else lies == old(lies)
    {
      bases := [];
      while |bases| < TRIALS
        invariant |bases| <= TRIALS
        invariant forall i :: 0 <= i < |bases| ==> 2 <= bases[i] <= if val == 3 then 2 else val - 3
      {
        var hi := if val == 3 then 2 else val - 3;
        var a: int :| 2 <= a <= hi;
        bases := bases + [a];
      }
      if Fools(val, bases) {
        if lies == 0 {
          var d :| 2 <= d < val && Divides(d, val);
          FactorIsInRange(d, val);
          FactorExposes(d, val, bases);
          bases := bases[0 := d];
        } else {
          lies := lies - 1;
        }
      }
    }
  }

  lemma FactorExposes(d: int, val: int, bases: seq<int>)
    requires 2 <= d < val && Divides(d, val) && InRange(val, bases)
    ensures !PassesFermat(val, bases[0 := d])
  {
    SharedFactorFailsTest(d, val, val - 1);
    assert bases[0 := d][0] == d;
  }

  lemma FactorIsInRange(d: int, n: int)
    requires 2 <= d < n && n % d == 0 && (n == 3 || 5 <= n)
    ensures d <= n - 3
  {
    var k := n / d;
    assert n == d * k;
    assert k != 1;
    if k >= 2 {
      assert d * k >= d * 2;
    }
  }

  /** What the square-and-multiply loop still has to compute: p * a^exp, modulo val. */
  ghost function Remaining(p: int, a: int, exp: nat, val: int): int
    requires 0 < val
  {
    (p * Pow(a, exp)) % val
  }

  function MulMod(x: int, y: int, m: int): (r: int)
    requires 0 < m
    ensures 0 <= r < m
  {
    (x * y) % m
  }

  lemma SquareStep(p: int, a: int, exp: nat, val: int)
    requires 0 < val && exp % 2 == 0
    ensures Remaining(p, MulMod(a, a, val), exp / 2, val) == Remaining(p, a, exp, val)
  {
    var h := exp / 2;
    ModOfMod(a * a, val);
    CongruentPowers(MulMod(a, a, val), a * a, h, val);
    PowSquare(a, h);
    CongruentProducts(p, p, Pow(MulMod(a, a, val), h), Pow(a * a, h), val);
  }

  lemma MultiplyStep(p: int, a: int, exp: nat, val: int)
    requires 0 < val && 0 < exp
    ensures Remaining(MulMod(p, a, val), a, exp - 1, val) == Remaining(p, a, exp, val)
  {
    ModOfMod(p * a, val);
    CongruentProducts(MulMod(p, a, val), p * a, Pow(a, exp - 1), Pow(a, exp - 1), val);
    assert (p * a) * Pow(a, exp - 1) == p * (a * Pow(a, exp - 1));
  }

  lemma Finished(p: int, a: int, val: int)
    requires 0 <= p < val
    ensures Remaining(p, a, 0, val) == p
  {
    assert p * Pow(a, 0) == p;
  }

  lemma Started(base: int, val: int)
    requires 3 <= val
    ensures Remaining(1, base, val - 1, val) == Pow(base, val - 1) % val
  {
    assert 1 * Pow(base, val - 1) == Pow(base, val - 1);
  }

  /** One Fermat trial: square-and-multiply computes base^(val-1) mod val. */
  method FermatTrial(val: int, base: int) returns (p: int)
    requires 3 <= val
    ensures p == Pow(base, val - 1) % val
  {
    hide *;
    p := 1;
    var a, exp := base, val - 1;
    Started(base, val);
    while exp != 0
      invariant 0 <= exp && 0 <= p < val
      invariant Remaining(p, a, exp, val) == Remaining(1, base, val - 1, val)
      decreases exp
    {
      ghost var even := exp;
      if exp % 2 == 1 {
        MultiplyStep(p, a, exp, val);
        p := MulMod(p, a, val);
        even := exp - 1;
      }
      SquareStep(p, a, even, val);
      a := MulMod(a, a, val);
      exp := exp / 2;
    }
    Finished(p, a, val);
  }

  /** is_prime: accepts exactly the numbers that pass for every drawn base, so it accepts every prime. */
  method IsPrimeTest(val: int, bases: seq<int>) returns (accepted: bool)
    requires (val == 3 || 5 <= val) && InRange(val, bases)
    ensures accepted <==> PassesFermat(val, bases)
    ensures IsPrime(val) ==> accepted
  {
    if IsPrime(val) {
      PrimePasses(val, bases);
    }
    var i := 0;
    while i < TRIALS
      invariant 0 <= i <= TRIALS
      invariant PassesFermat(val, bases[..i])
    {
      var p := FermatTrial(val, bases[i]);
      if p != 1 {
        return false;
      }
      assert bases[..i + 1] == bases[..i] + [bases[i]];
      i := i + 1;
    }
    assert bases[..i] == bases;
    return true;
  }

  lemma PrimePasses(val: int, bases: seq<int>)
    requires IsPrime(val) && InRange(val, bases) && 3 <= val
    ensures PassesFermat(val, bases)
  {
    forall i | 0 <= i < |bases|
      ensures Pow(bases[i], val - 1) % val == 1
    {
      SmallNumberNotDivisible(bases[i], val);
      FermatsLittleTheorem(bases[i], val);
    }
  }

  /** find_prime_greater_than: ends, whatever is drawn, and passes over no prime among the odd
      numbers above val. The result is prime unless rand() deceived the test. */
  method FindPrimeGreaterThan(val: int, rng: Random) returns (p: int)
    requires 1 <= val
    modifies rng
    ensures val < p && p % 2 == 1
    ensures forall q :: val < q < p && q % 2 == 1 ==> !IsPrime(q)
    ensures if IsPrime(p) then rng.lies == old(rng.lies) else rng.lies == old(rng.lies) - 1
  {
    p := if val % 2 == 1 then val + 2 else val + 1;
    ghost var above := PrimesAreUnbounded(val + 2);
    PrimeAboveTwoIsOdd(above);
    FirstOdd(val);
    hide IsPrime, PassesFermat, InRange, NoOddPrimeBetween;
    while true
      invariant val < p <= above && p % 2 == 1
      invariant NoOddPrimeBetween(val, p)
      invariant rng.lies == old(rng.lies)
      decreases above - p
    {
      var bases := rng.Draw(p);
      var accepted := IsPrimeTest(p, bases);
      if accepted {
        NoneBetween(val, p);
        return;
      }
      NextOdd(val, p, above);
      p := p + 2;
    }
  }

  ghost predicate NoOddPrimeBetween(val: int, p: int) {
    forall q :: val < q < p && q % 2 == 1 ==> !IsPrime(q)
  }

  lemma NoneBetween(val: int, p: int)
    requires NoOddPrimeBetween(val, p)
    ensures forall q :: val < q < p && q % 2 == 1 ==> !IsPrime(q)
  {
  }

  lemma NextOdd(val: int, p: int, above: int)
    requires NoOddPrimeBetween(val, p) && !IsPrime(p) && p % 2 == 1 && p <= above && above % 2 == 1 && IsPrime(above)
    ensures NoOddPrimeBetween(val, p + 2) && p + 2 <= above && (p + 2) % 2 == 1
  {
    hide IsPrime;
  }

  lemma FirstOdd(val: int)
    requires 1 <= val
    ensures var p := if val % 2 == 1 then val + 2 else val + 1;
            p % 2 == 1 && NoOddPrimeBetween(val, p) && p <= val + 2
  {
    hide IsPrime;
  }

  // ---------------------------------------------------------------- the table as a map

  /** No number from k on whose square is at most n divides n. */
  predicate NoSmallDivisor(n: int, k: int)
    requires k >= 2
    decreases n - k
  {
    k * k > n || (n % k != 0 && NoSmallDivisor(n, k + 1))
  }

  lemma {:induction false} SmallDivisorFound(n: int, k: int, d: int)
    requires 2 <= k <= d && d * d <= n && n % d == 0
    ensures !NoSmallDivisor(n, k)
    decreases d - k
  {
    MultiplyBoth(k, d);
    if k < d {
      SmallDivisorFound(n, k + 1, d);
    }
  }

  lemma MultiplyBoth(a: int, b: int)
    requires 0 <= a <= b
    ensures a * a <= a * b <= b * b
  {
  }

  lemma CofactorAboveOne(n: int, d: int, e: int)
    requires 2 <= d < n && n == d * e
    ensures 2 <= e
  {
  }

  /** Of two factors one has a square of at most their product. */
  lemma {:induction false} FactorsFound(n: int, d: int, e: int)
    requires 2 <= d && 2 <= e && n == d * e
    ensures !NoSmallDivisor(n, 2)
  {
    hide NoSmallDivisor;
    MultipleIsDivisible(d, e);
    MultipleIsDivisible(e, d);
    if d <= e {
      MultiplyBoth(d, e);
      SmallDivisorFound(n, 2, d);
    } else {
      MultiplyBoth(e, d);
      SmallDivisorFound(n, 2, e);
    }
  }

  /** A number without small divisors is prime. */
  lemma {:induction false} CheckedIsPrime(n: int)
    requires n >= 2
    ensures NoSmallDivisor(n, 2) ==> IsPrime(n)
  {
    hide NoSmallDivisor;
    if !IsPrime(n) {
      var d :| 2 <= d < n && Divides(d, n);
      CofactorAboveOne(n, d, n / d);
      FactorsFound(n, d, n / d);
    }
  }

  lemma SmallRemainder(k: int)
    requires 2 <= k < 32
    ensures TABLE_STARTSIZE % k != 0
  {
    assert 1021 % 2 == 1 && 1021 % 3 == 1 && 1021 % 5 == 1 && 1021 % 7 == 6 && 1021 % 11 == 9;
    assert 1021 % 13 == 7 && 1021 % 17 == 1 && 1021 % 19 == 14 && 1021 % 23 == 9 && 1021 % 29 == 6 && 1021 % 31 == 29;
  }

  /** The default table size is prime. */
  lemma StartsizeIsPrime()
    ensures IsPrime(TABLE_STARTSIZE)
  {
    var k := 32;
    while k > 2
      invariant 2 <= k <= 32 && NoSmallDivisor(TABLE_STARTSIZE, k)
    {
      k := k - 1;
      SmallRemainder(k);
    }
    CheckedIsPrime(TABLE_STARTSIZE);
  }

  /** A slot that was never used has no data. A tombstone keeps its data but is not active. */
  datatype Entry<+V> = Entry(data: Option<V>, active: bool, key: int)

  /** The j-th slot on the probe path of a key. */
  function Slot(key: int, j: nat, size: int): (slot: int)
    requires 0 <= key && 3 <= size
    ensures 0 <= slot < size
  {
    Probe(Home(key, size), Step(key, size), size, j)
  }

  /** Double hashing: the path starts at the key's remainder and goes on in steps of another one. */
  lemma {:induction false} SlotIs(key: int, j: nat, size: int)
    requires 0 <= key && 3 <= size
    ensures Slot(key, j, size) == (key % size + j * (key % (size - 2) + 1)) % size
  {
    ProbeIs(Home(key, size), Step(key, size), size, j);
  }

  /** The slot with the given index was used, and not for the key. */
  predicate Passable<V>(e: Entry<V>, key: int) {
    e.data.Some? && e.key != key
  }

  predicate ActiveForOther<V>(e: Entry<V>, key: int) {
    e.active && e.key != key
  }

  ghost predicate Holds<V>(e: Entry<V>, key: int, value: V)
  {
    e.active && e.key == key && e.data == Some(value)
  }

  /** t stores exactly the bindings of m, key k sitting at step at[k] of its probe path, and no
      never-used slot and no other trace of k comes before it there. */
  ghost predicate Represents<V>(t: seq<Entry<V>>, m: map<int, V>, at: map<int, nat>) {
    && 3 <= |t|
    && at.Keys == m.Keys
    && (forall k :: k in m ==> 0 <= k)
    && (forall k :: k in m ==> at[k] < |t| && Holds(t[Slot(k, at[k], |t|)], k, m[k]))
    && (forall k, j: nat :: k in m && j < at[k] ==> Passable(t[Slot(k, j, |t|)], k))
    && (forall x :: 0 <= x < |t| && t[x].active ==> t[x].key in m && Slot(t[x].key, at[t[x].key], |t|) == x)
  }

  /** No tombstone comes before the key on its probe path. */
  ghost predicate Findable<V>(t: seq<Entry<V>>, at: map<int, nat>, key: int)
    requires 3 <= |t| && 0 <= key
  {
    key in at ==> forall j: nat :: j < at[key] ==> t[Slot(key, j, |t|)].active
  }

  ghost predicate NoTombstones<V>(t: seq<Entry<V>>) {
    forall x :: 0 <= x < |t| && t[x].data.Some? ==> t[x].active
  }

  /** Two slots are active for one key: the table stands for no map. */
  ghost predicate Duplicated<V>(t: seq<Entry<V>>, key: int) {
    exists x, y :: 0 <= x < |t| && 0 <= y < |t| && x != y &&
      t[x].active && t[y].active && t[x].key == key && t[y].key == key
  }

  lemma DuplicatedStandsForNoMap<V>(t: seq<Entry<V>>, key: int, m: map<int, V>, at: map<int, nat>)
    requires Duplicated(t, key)
    ensures !Represents(t, m, at)
  {
  }

  lemma OverwriteKeeps<V>(t: seq<Entry<V>>, m: map<int, V>, at: map<int, nat>, key: int, x: int, v: V)
    requires Represents(t, m, at) && 0 <= x < |t| && t[x].active && t[x].key == key
    ensures key in m
    ensures Represents(t[x := t[x].(data := Some(v))], m[key := v], at)
  {
    hide Slot;
  }

  lemma FillKeeps<V>(t: seq<Entry<V>>, m: map<int, V>, at: map<int, nat>, key: int, j: nat, v: V)
    requires Represents(t, m, at) && 0 <= key && key !in m && j < |t|
    requires !t[Slot(key, j, |t|)].active
    requires forall i: nat :: i < j ==> ActiveForOther(t[Slot(key, i, |t|)], key)
    ensures Represents(t[Slot(key, j, |t|) := Entry(Some(v), true, key)], m[key := v], at[key := j])
  {
    hide Slot;
    var x := Slot(key, j, |t|);
    var t', m', at' := t[x := Entry(Some(v), true, key)], m[key := v], at[key := j];
    forall k | k in m'
      ensures at'[k] < |t'| && Holds(t'[Slot(k, at'[k], |t'|)], k, m'[k])
    {
      assert k != key ==> Slot(k, at[k], |t|) != x;
    }
    forall k, i: nat | k in m' && i < at'[k]
      ensures Passable(t'[Slot(k, i, |t'|)], k)
    {
      if k == key {
        assert ActiveForOther(t[Slot(k, i, |t|)], k);
      } else {
        assert Passable(t[Slot(k, i, |t|)], k);
      }
    }
    forall y | 0 <= y < |t'| && t'[y].active
      ensures t'[y].key in m' && Slot(t'[y].key, at'[t'[y].key], |t'|) == y
    {
    }
  }

  lemma RemoveKeeps<V>(t: seq<Entry<V>>, m: map<int, V>, at: map<int, nat>, key: int)
    requires Represents(t, m, at) && key in m
    ensures var x := Slot(key, at[key], |t|);
            Represents(t[x := t[x].(active := false)], m - {key}, at - {key})
  {
    hide Slot;
  }

  /** A probe that meets the key's own tombstone, or a never-used slot, or runs out, has shown the key absent. */
  lemma ProbeShowsAbsent<V>(t: seq<Entry<V>>, m: map<int, V>, at: map<int, nat>, key: int, j: nat)
    requires Represents(t, m, at) && 0 <= key && j <= |t|
    requires forall i: nat :: i < j ==> Passable(t[Slot(key, i, |t|)], key)
    requires j < |t| ==> !t[Slot(key, j, |t|)].active && !Passable(t[Slot(key, j, |t|)], key)
    ensures key !in m
  {
    hide Slot;
  }

  ghost function ActiveKeys<V>(t: seq<Entry<V>>, n: nat): set<int>
    requires n <= |t|
  {
    if n == 0 then {} else ActiveKeys(t, n - 1) + if t[n - 1].active then {t[n - 1].key} else {}
  }

  lemma {:induction false} ActiveKeysAreBound<V>(t: seq<Entry<V>>, m: map<int, V>, at: map<int, nat>, n: nat)
    requires Represents(t, m, at) && n <= |t|
    ensures forall k :: k in ActiveKeys(t, n) ==> k in m && Slot(k, at[k], |t|) < n
    ensures forall x :: 0 <= x < n && t[x].active ==> t[x].key in ActiveKeys(t, n)
  {
    hide Slot;
    if n > 0 {
      ActiveKeysAreBound(t, m, at, n - 1);
    }
  }

  ghost predicate AllActive<V>(t: seq<Entry<V>>, n: nat)
    requires n <= |t|
  {
    forall x :: 0 <= x < n ==> t[x].active
  }

  ghost function CountActive<V>(t: seq<Entry<V>>, n: nat): (c: nat)
    requires n <= |t|
    ensures c <= n
    ensures c == n <==> AllActive(t, n)
  {
    if n == 0 then 0 else CountActive(t, n - 1) + if t[n - 1].active then 1 else 0
  }

  lemma NextActiveKeyIsNew<V>(t: seq<Entry<V>>, m: map<int, V>, at: map<int, nat>, n: nat)
    requires Represents(t, m, at) && n < |t| && t[n].active
    ensures t[n].key !in ActiveKeys(t, n)
  {
    hide Slot;
    ActiveKeysAreBound(t, m, at, n);
  }

  lemma {:induction false} ActiveKeysCount<V>(t: seq<Entry<V>>, m: map<int, V>, at: map<int, nat>, n: nat)
    requires Represents(t, m, at) && n <= |t|
    ensures |ActiveKeys(t, n)| == CountActive(t, n)
  {
    hide Slot, Represents, AllActive;
    if n > 0 {
      ActiveKeysCount(t, m, at, n - 1);
      if t[n - 1].active {
        NextActiveKeyIsNew(t, m, at, n - 1);
      }
    }
  }

  /** There are at most as many bindings as slots, and as many only when every slot is active. */
  lemma BindingsFitTable<V>(t: seq<Entry<V>>, m: map<int, V>, at: map<int, nat>)
    requires Represents(t, m, at)
    ensures |m| <= |t|
    ensures |m| == |t| <==> AllActive(t, |t|)
  {
    hide Slot;
    ActiveKeysCount(t, m, at, |t|);
    ActiveKeysAreBound(t, m, at, |t|);
    var s := ActiveKeys(t, |t|);
    forall k | k in m.Keys
      ensures k in s
    {
      assert t[Slot(k, at[k], |t|)].active;
    }
    forall k | k in s
      ensures k in m.Keys
    {
    }
    assert s == m.Keys;
    assert |m| == |m.Keys|;
  }

  /** With a prime size, a probe path on which every slot is active means that the table is full. */
  lemma FullPathMeansFullTable<V>(t: seq<Entry<V>>, key: int, x: int)
    requires 3 <= |t| && IsPrime(|t|) && 0 <= key && 0 <= x < |t|
    requires forall i: nat :: i < |t| ==> t[Slot(key, i, |t|)].active
    ensures t[x].active
  {
    ProbesCoverTable(Home(key, |t|), Step(key, |t|), |t|, x);
    var i: nat :| i < |t| && Probe(Home(key, |t|), Step(key, |t|), |t|, i) == x;
    assert Slot(key, i, |t|) == x;
  }

  lemma EmptyTable<V>(t: seq<Entry<V>>)
    requires 3 <= |t| && forall x :: 0 <= x < |t| ==> !t[x].active && t[x].data.None?
    ensures Represents(t, map[], map[]) && NoTombstones(t)
  {
  }

  class HashMap<V> {
    var table: array<Entry<V>>
    var size: int
    var count: int
    const rng: Random
    /** What the table stands for, and where on its probe path each key is. */
    ghost var Contents: map<int, V>
    ghost var at: map<int, nat>

    ghost predicate Valid()
      reads this, table
    {
      table.Length == size && count == |Contents| && Represents(table[..], Contents, at)
    }

    ghost predicate Clean()
      reads this, table
    {
      NoTombstones(table[..])
    }

    /** Whether an insertion of the key would meet the key before it meets a tombstone. */
    ghost predicate CanFind(key: int)
      requires Valid() && 0 <= key
      reads this, table
    {
      Findable(table[..], at, key)
    }

    /** A prime size and a free slot: an insertion needs no growth. */
    ghost predicate Roomy()
      reads this
    {
      2 <= size && IsPrime(size) && count < size
    }

    constructor (startsize: int, rng: Random)
      requires startsize == 0 || 3 <= startsize
      modifies rng
      ensures Valid() && Contents == map[] && Clean() && this.rng == rng && fresh(table)
      ensures startsize == 0 ==> size == TABLE_STARTSIZE && Roomy()
      ensures startsize != 0 ==> startsize - 2 < size && size % 2 == 1
      ensures startsize != 0 ==> forall q :: startsize - 2 < q < size && q % 2 == 1 ==> !IsPrime(q)
    {
      var n := TABLE_STARTSIZE;
      if startsize != 0 {
        n := FindPrimeGreaterThan(startsize - 2, rng);
      }
      table := new Entry<V>[n](_ => Entry(None, false, 0));
      size, count, this.rng := n, 0, rng;
      Contents, at := map[], map[];
      new;
      EmptyTable(table[..]);
      StartsizeIsPrime();
    }

    /** hm_count */
    method Count() returns (n: int)
      requires Valid()
      ensures n == |Contents|
    {
      n := count;
    }

    /** The probe loop that hm_get and hm_remove share: it passes over slots used for other keys. */
    method Search(key: int) returns (i: int, index: int)
      requires Valid() && 0 <= key
      ensures 0 <= i <= size && index == Slot(key, i, size)
      ensures forall j: nat :: j < i ==> Passable(table[Slot(key, j, size)], key)
      ensures i < size ==> !Passable(table[index], key)
    {
      hide Slot, Home, Step, Advance;
      index := Home(key, size);
      var step := Step(key, size);
      i := 0;
      FirstSlot(key, size);
      while i < size
        invariant 0 <= i <= size && index == Slot(key, i, size)
        invariant forall j: nat :: j < i ==> Passable(table[Slot(key, j, size)], key)
      {
        if table[index].key == key || table[index].data.None? {
          return;
        }
        NextSlot(key, i, size);
        index := Advance(index, step, size);
        i := i + 1;
      }
    }

    /** hm_get */
    method Get(key: int) returns (data: Option<V>)
      requires Valid() && 0 <= key
      ensures data == if key in Contents then Some(Contents[key]) else None
    {
      hide Slot;
      if count == 0 {
        return None;
      }
      var i, index := Search(key);
      if i < size && table[index].active {
        return table[index].data;
      }
      ProbeShowsAbsent(table[..], Contents, at, key, i);
      return None;
    }

    /** hm_remove: the slot keeps its key and data and becomes a tombstone. */
    method Remove(key: int) returns (data: Option<V>)
      requires Valid() && 0 <= key
      modifies this, table
      ensures Valid() && size == old(size) && table == old(table)
      ensures data == if key in old(Contents) then Some(old(Contents)[key]) else None
      ensures Contents == old(Contents) - {key} && at == old(at) - {key}
      ensures key !in old(Contents) ==> unchanged(table)
    {
      hide Slot;
      var i, index := Search(key);
      if i < size && table[index].active {
        RemoveKeeps(table[..], Contents, at, key);
        ghost var t := table[..];
        data := table[index].data;
        table[index] := table[index].(active := false);
        count := count - 1;
        Contents, at := Contents - {key}, at - {key};
        assert table[..] == t[index := t[index].(active := false)];
      } else {
        ProbeShowsAbsent(table[..], Contents, at, key, i);
        data := None;
      }
    }

    /** The probe loop of hm_insert: it passes over slots active for other keys. */
    method SearchForInsert(key: int) returns (i: int, index: int)
      requires Valid() && 0 <= key
      ensures 0 <= i <= size && index == Slot(key, i, size)
      ensures forall j: nat :: j < i ==> ActiveForOther(table[Slot(key, j, size)], key)
      ensures i < size ==> !ActiveForOther(table[index], key)
    {
      hide Slot, Home, Step, Advance;
      index := Home(key, size);
      var step := Step(key, size);
      i := 0;
      FirstSlot(key, size);
      while i < size
        invariant 0 <= i <= size && index == Slot(key, i, size)
        invariant forall j: nat :: j < i ==> ActiveForOther(table[Slot(key, j, size)], key)
      {
        if !table[index].active || table[index].key == key {
          return;
        }
        NextSlot(key, i, size);
        index := Advance(index, step, size);
        i := i + 1;
      }
    }

    /** One pass of hm_insert over the probe path. It fails only on a path without a free slot. */
    method InsertPass(data: V, key: int) returns (placed: bool)
      requires Valid() && 0 <= key
      modifies this, table
      ensures table == old(table) && size == old(size)
      ensures placed && old(CanFind(key)) ==> Valid() && Contents == old(Contents)[key := data]
      ensures placed && old(CanFind(key)) && old(Clean()) ==> Clean()
      ensures placed && old(CanFind(key)) ==> forall k :: k in old(at) ==> k in at && at[k] == old(at)[k]
      ensures placed && !old(CanFind(key)) ==> Duplicated(table[..], key) && count == old(count) + 1
      ensures !placed ==> unchanged(this) && unchanged(table) && key !in Contents && !Roomy()
    {
      hide Slot, Represents, Findable, NoTombstones, Duplicated, ActiveForOther, IsPrime;
      var i, index := SearchForInsert(key);
      if i == size {
        NoFreeSlot(table[..], Contents, at, key);
        return false;
      }
      if table[index].active {
        MetActive(table[index], key);
        Overwrite(i, index, data, key);
      } else {
        Fill(i, index, data, key);
      }
      return true;
    }

    /** The key was met: its value is replaced. */
    method Overwrite(i: int, index: int, data: V, key: int)
      requires Valid() && 0 <= key && 0 <= i < size && index == Slot(key, i, size)
      requires table[index].active && table[index].key == key
      requires forall j: nat :: j < i ==> ActiveForOther(table[Slot(key, j, size)], key)
      modifies this, table
      ensures table == old(table) && size == old(size) && at == old(at) && old(CanFind(key))
      ensures Valid() && Contents == old(Contents)[key := data] && (old(Clean()) ==> Clean())
    {
      ghost var t := table[..];
      hide Slot, Represents, Findable, NoTombstones, ActiveForOther;
      OverwriteKeeps(t, Contents, at, key, index, data);
      FoundThereIsFindable(t, Contents, at, key, i);
      CleanAfter(t, index, t[index].(data := Some(data)));
      table[index] := table[index].(data := Some(data));
      Contents := Contents[key := data];
      assert table[..] == t[index := t[index].(data := Some(data))];
    }

    /** A slot was met that is not active: it takes the key. */
    method Fill(i: int, index: int, data: V, key: int)
      requires Valid() && 0 <= key && 0 <= i < size && index == Slot(key, i, size) && !table[index].active
      requires forall j: nat :: j < i ==> ActiveForOther(table[Slot(key, j, size)], key)
      modifies this, table
      ensures table == old(table) && size == old(size)
      ensures old(CanFind(key)) ==> Valid() && Contents == old(Contents)[key := data] && (old(Clean()) ==> Clean())
      ensures old(CanFind(key)) ==> forall k :: k in old(at) ==> k in at && at[k] == old(at)[k]
      ensures !old(CanFind(key)) ==> Duplicated(table[..], key) && count == old(count) + 1
    {
      ghost var t := table[..];
      AbsentKeys(t, Contents, at, key);
      hide Slot, Represents, Findable, NoTombstones, Duplicated, ActiveForOther;
      CleanAfter(t, index, Entry(Some(data), true, key));
      table[index] := Entry(Some(data), true, key);
      count := count + 1;
      assert table[..] == t[index := Entry(Some(data), true, key)];
      if key in Contents {
        FilledTooEarly(t, Contents, at, key, i, data);
      } else {
        AbsentIsFindable(t, Contents, at, key);
        FillKeeps(t, Contents, at, key, i, data);
        Contents, at := Contents[key := data], at[key := i];
      }
    }

    /** hm_insert. It keeps the table standing for a map exactly when no tombstone precedes the key
        on its path; with a prime size and a free slot the table does not grow. */
    method Insert(data: V, key: int)
      requires Valid() && 0 <= key
      modifies this, table, rng
      ensures old(CanFind(key)) ==> Valid() && Contents == old(Contents)[key := data]
      ensures old(CanFind(key)) && old(Clean()) ==> Clean()
      ensures !old(CanFind(key)) ==> !Valid() && Duplicated(table[..], key) && count == old(count) + 1
      ensures old(Roomy()) ==> table == old(table) && size == old(size) && rng.lies == old(rng.lies)
      ensures old(Roomy()) && old(CanFind(key)) ==> forall k :: k in old(at) ==> k in at && at[k] == old(at)[k]
      ensures table == old(table) || fresh(table)
      ensures old(size) <= size && rng.lies <= old(rng.lies)
      decreases rng.lies, if Roomy() then 0 else 1, 1
    {
      hide Slot, IsPrime;
      if size <= count {
        FullTableHasNoTombstones(table[..], Contents, at);
        Rehash();
      }
      CleanIsFindable(table[..], Contents, at, key);
      while true
        invariant Valid() && Contents == old(Contents)
        invariant old(CanFind(key)) ==> CanFind(key)
        invariant !old(CanFind(key)) ==> table == old(table) && unchanged(table) && !CanFind(key) && count == old(count)
        invariant old(Clean()) ==> Clean()
        invariant old(Roomy()) ==> Roomy() && table == old(table) && size == old(size) && rng.lies == old(rng.lies)
        invariant old(Roomy()) ==> at == old(at)
        invariant table == old(table) || fresh(table)
        invariant old(size) <= size && rng.lies <= old(rng.lies)
        decreases rng.lies, if Roomy() then 0 else 1
      {
        var placed := InsertPass(data, key);
        if placed {
          return;
        }
        Rehash();
      }
    }

    /** The body of rehash's loop. */
    method MoveEntry(e: Entry<V>)
      requires Valid() && Clean()
      requires e.active ==> 0 <= e.key && e.data.Some? && e.key !in Contents
      modifies this, table, rng
      ensures Valid() && Clean()
      ensures Contents == if e.active then old(Contents)[e.key := e.data.value] else old(Contents)
      ensures old(Roomy()) ==> size == old(size) && rng.lies == old(rng.lies)
      ensures table == old(table) || fresh(table)
      ensures old(size) <= size && rng.lies <= old(rng.lies)
      decreases rng.lies, if Roomy() then 0 else 1, 2
    {
      hide Slot, IsPrime, Represents, NoTombstones;
      if e.active {
        AbsentIsFindable(table[..], Contents, at, e.key);
        Insert(e.data.value, e.key);
      }
    }

    method Empty(newSize: int)
      requires 3 <= newSize
      modifies this
      ensures Valid() && Clean() && Contents == map[] && fresh(table) && size == newSize
    {
      table := new Entry<V>[newSize](_ => Entry(None, false, 0));
      size, count, Contents, at := newSize, 0, map[], map[];
      EmptyTable(table[..]);
    }

    /** The loop of rehash, from the last slot of the old table down to the first. */
    method Refill(oldTable: array<Entry<V>>, ghost m0: map<int, V>, ghost at0: map<int, nat>)
      requires Valid() && Clean() && Contents == map[] && oldTable != table
      requires Represents(oldTable[..], m0, at0) && 2 * oldTable.Length < size
      modifies this, table, rng
      ensures Valid() && Clean() && Contents == m0
      ensures table == old(table) || fresh(table)
      ensures old(size) <= size && rng.lies <= old(rng.lies)
      ensures old(Roomy()) ==> size == old(size) && rng.lies == old(rng.lies)
      decreases rng.lies, if Roomy() then 0 else 1, 3
    {
      hide Slot, IsPrime, Represents, NoTombstones, Moved;
      var n := oldTable.Length;
      ghost var t0 := oldTable[..];
      NothingMoved(t0, m0, at0);
      while n > 0
        invariant 0 <= n <= |t0| && oldTable[..] == t0
        invariant Valid() && Clean() && Contents == Moved(t0, m0, at0, n)
        invariant table == old(table) || fresh(table)
        invariant old(size) <= size && rng.lies <= old(rng.lies)
        invariant old(Roomy()) ==> size == old(size) && rng.lies == old(rng.lies)
      {
        n := n - 1;
        MoveNext(t0, m0, at0, n);
        MovedAreFewer(t0, m0, at0, n + 1);
        MoveEntry(oldTable[n]);
      }
      AllMoved(t0, m0, at0);
    }

    /** rehash: keeps the bindings, drops every tombstone, and more than doubles the size. Unless the
        search for a prime was deceived, the new size is prime and none of the insertions grows the table. */
    method Rehash()
      requires Valid()
      modifies this, rng
      ensures Valid() && Contents == old(Contents) && Clean() && fresh(table)
      ensures 2 * old(size) < size
      ensures rng.lies <= old(rng.lies) && (rng.lies == old(rng.lies) ==> Roomy())
      decreases rng.lies, 1, 0
    {
      assert 3 <= size;
      hide Slot, IsPrime, Represents, NoTombstones;
      var oldTable, n := table, size;
      ghost var m0, at0 := Contents, at;
      BindingsFitTable(oldTable[..], m0, at0);
      var newSize := FindPrimeGreaterThan(n * 2, rng);
      Empty(newSize);
      Refill(oldTable, m0, at0);
    }
  }

  lemma CleanAfter<V>(t: seq<Entry<V>>, x: int, e: Entry<V>)
    requires 0 <= x < |t| && e.active
    ensures NoTombstones(t) ==> NoTombstones(t[x := e])
  {
  }

  lemma AbsentKeys<V>(t: seq<Entry<V>>, m: map<int, V>, at: map<int, nat>, key: int)
    requires Represents(t, m, at)
    ensures 3 <= |t| && (key in m <==> key in at)
  {
  }

  lemma MetActive<V>(e: Entry<V>, key: int)
    requires e.active && !ActiveForOther(e, key)
    ensures e.key == key
  {
  }

  lemma NoFreeSlot<V>(t: seq<Entry<V>>, m: map<int, V>, at: map<int, nat>, key: int)
    requires Represents(t, m, at) && 0 <= key
    requires forall j: nat :: j < |t| ==> ActiveForOther(t[Slot(key, j, |t|)], key)
    ensures key !in m && (IsPrime(|t|) ==> |m| == |t|)
  {
    hide Slot, IsPrime;
    if IsPrime(|t|) {
      forall x | 0 <= x < |t|
        ensures t[x].active
      {
        FullPathMeansFullTable(t, key, x);
      }
      BindingsFitTable(t, m, at);
    }
  }

  lemma FoundThereIsFindable<V>(t: seq<Entry<V>>, m: map<int, V>, at: map<int, nat>, key: int, i: nat)
    requires Represents(t, m, at) && 0 <= key && i < |t|
    requires forall j: nat :: j < i ==> ActiveForOther(t[Slot(key, j, |t|)], key)
    requires t[Slot(key, i, |t|)].active && t[Slot(key, i, |t|)].key == key
    ensures Findable(t, at, key)
  {
    hide Slot;
    assert at[key] <= i by {
      if i < at[key] {
        assert false;
      }
    }
  }

  lemma FilledTooEarly<V>(t: seq<Entry<V>>, m: map<int, V>, at: map<int, nat>, key: int, i: nat, v: V)
    requires Represents(t, m, at) && key in m && i < |t|
    requires forall j: nat :: j < i ==> ActiveForOther(t[Slot(key, j, |t|)], key)
    requires !t[Slot(key, i, |t|)].active
    ensures !Findable(t, at, key)
    ensures Duplicated(t[Slot(key, i, |t|) := Entry(Some(v), true, key)], key)
  {
    hide Slot;
    var x, y := Slot(key, i, |t|), Slot(key, at[key], |t|);
    assert Holds(t[y], key, m[key]);
    if at[key] < i {
      assert false;
    }
    var t' := t[x := Entry(Some(v), true, key)];
    assert x != y && t'[x].key == key && t'[y] == t[y];
  }

  lemma FullTableHasNoTombstones<V>(t: seq<Entry<V>>, m: map<int, V>, at: map<int, nat>)
    requires Represents(t, m, at) && |t| <= |m|
    ensures NoTombstones(t)
  {
    BindingsFitTable(t, m, at);
  }

  lemma CleanIsFindable<V>(t: seq<Entry<V>>, m: map<int, V>, at: map<int, nat>, key: int)
    requires Represents(t, m, at) && 0 <= key
    ensures NoTombstones(t) ==> Findable(t, at, key)
  {
    hide Slot;
    if NoTombstones(t) && key in at {
      forall j: nat | j < at[key]
        ensures t[Slot(key, j, |t|)].active
      {
        assert Passable(t[Slot(key, j, |t|)], key);
      }
    }
  }

  lemma AbsentIsFindable<V>(t: seq<Entry<V>>, m: map<int, V>, at: map<int, nat>, key: int)
    requires Represents(t, m, at) && 0 <= key && key !in m
    ensures 3 <= |t| && Findable(t, at, key)
  {
    hide Slot;
  }

  /** The bindings kept in slots n and above. */
  ghost function Moved<V>(t: seq<Entry<V>>, m: map<int, V>, at: map<int, nat>, n: nat): map<int, V>
    requires Represents(t, m, at)
  {
    m - set k | k in m && Slot(k, at[k], |t|) < n
  }

  lemma NothingMoved<V>(t: seq<Entry<V>>, m: map<int, V>, at: map<int, nat>)
    requires Represents(t, m, at)
    ensures Moved(t, m, at, |t|) == map[]
  {
    hide Slot;
  }

  lemma AllMoved<V>(t: seq<Entry<V>>, m: map<int, V>, at: map<int, nat>)
    requires Represents(t, m, at)
    ensures Moved(t, m, at, 0) == m
  {
    hide Slot;
  }

  /** Going one slot down moves the binding of that slot, if it is active, and its key is new. */
  lemma MoveNext<V>(t: seq<Entry<V>>, m: map<int, V>, at: map<int, nat>, n: nat)
    requires Represents(t, m, at) && n < |t|
    ensures !t[n].active ==> Moved(t, m, at, n) == Moved(t, m, at, n + 1)
    ensures t[n].active ==> 0 <= t[n].key && t[n].data.Some? && t[n].key !in Moved(t, m, at, n + 1)
    ensures t[n].active ==> Moved(t, m, at, n) == Moved(t, m, at, n + 1)[t[n].key := t[n].data.value]
  {
    hide Slot;
    if t[n].active {
      var k := t[n].key;
      assert Slot(k, at[k], |t|) == n && Holds(t[n], k, m[k]);
    } else {
      forall k | k in m
        ensures Slot(k, at[k], |t|) != n
      {
        assert Holds(t[Slot(k, at[k], |t|)], k, m[k]);
      }
    }
  }

  lemma MovedAreFewer<V>(t: seq<Entry<V>>, m: map<int, V>, at: map<int, nat>, n: nat)
    requires Represents(t, m, at)
    ensures |Moved(t, m, at, n)| <= |t|
  {
    hide Slot;
    var s := Moved(t, m, at, n);
    BindingsFitTable(t, m, at);
    SubsetSize(s.Keys, m.Keys);
    assert |s| == |s.Keys| && |m| == |m.Keys|;
  }

  function Home(key: int, size: int): (index: int)
    requires 0 <= key && 3 <= size
    ensures 0 <= index < size
  {
    key % size
  }

  function Step(key: int, size: int): (step: int)
    requires 0 <= key && 3 <= size
    ensures 1 <= step <= size - 2
  {
    key % (size - 2) + 1
  }

  function Advance(index: int, step: int, size: int): (next: int)
    requires 0 < size
    ensures 0 <= next < size
  {
    (index + step) % size
  }

  lemma FirstSlot(key: int, size: int)
    requires 0 <= key && 3 <= size
    ensures Slot(key, 0, size) == Home(key, size)
  {
    ModOfMod(key, size);
  }

  lemma NextSlot(key: int, i: nat, size: int)
    requires 0 <= key && 3 <= size
    ensures Advance(Slot(key, i, size), Step(key, size), size) == Slot(key, i + 1, size)
  {
  }

  // ---------------------------------------------------------------- whole runs

  datatype Op<+V> = Insert(key: int, data: V) | Get(key: int) | Remove(key: int)

  /** What a plain map would hold after an operation. */
  function MapStep<V>(op: Op<V>, m: map<int, V>): map<int, V> {
    match op
    case Insert(k, v) => m[k := v]
    case Get(_) => m
    case Remove(k) => m - {k}
  }

  function MapAfter<V>(ops: seq<Op<V>>, m: map<int, V>): map<int, V> {
    if ops == [] then m else MapAfter(ops[1..], MapStep(ops[0], m))
  }

  /** What a plain map would answer, operation by operation. */
  function MapAnswers<V>(ops: seq<Op<V>>, m: map<int, V>): seq<Option<V>> {
    if ops == [] then []
    else
      var k := ops[0].key;
      [if !ops[0].Insert? && k in m then Some(m[k]) else None] + MapAnswers(ops[1..], MapStep(ops[0], m))
  }

  /** The callers' discipline: keys are not negative, and once a binding was removed a key is
      inserted only when it is absent. */
  predicate Disciplined<V>(ops: seq<Op<V>>, m: map<int, V>, clean: bool) {
    ops != [] ==>
      && 0 <= ops[0].key
      && (ops[0].Insert? ==> clean || ops[0].key !in m)
      && Disciplined(ops[1..], MapStep(ops[0], m), clean && !(ops[0].Remove? && ops[0].key in m))
  }

  method Perform<V>(hm: HashMap<V>, op: Op<V>) returns (answer: Option<V>)
    requires hm.Valid() && 0 <= op.key && (op.Insert? ==> hm.CanFind(op.key))
    modifies hm, hm.table, hm.rng
    ensures hm.Valid() && (hm.table == old(hm.table) || fresh(hm.table))
    ensures hm.Contents == MapStep(op, old(hm.Contents))
    ensures [answer] == MapAnswers([op], old(hm.Contents))
    ensures old(hm.Clean()) && !(op.Remove? && op.key in old(hm.Contents)) ==> hm.Clean()
  {
    hide Slot, Represents, IsPrime, Findable;
    match op
    case Insert(k, v) =>
      hm.Insert(v, k);
      answer := None;
    case Get(k) =>
      answer := hm.Get(k);
    case Remove(k) =>
      answer := hm.Remove(k);
  }

  /** Over every disciplined run the table answers as a plain map would and ends up standing for it. */
  method Run<V>(hm: HashMap<V>, ops: seq<Op<V>>, ghost clean: bool) returns (answers: seq<Option<V>>, n: int)
    requires hm.Valid() && Disciplined(ops, hm.Contents, clean) && (clean ==> hm.Clean())
    modifies hm, hm.table, hm.rng
    ensures hm.Valid()
    ensures hm.Contents == MapAfter(ops, old(hm.Contents))
    ensures answers == MapAnswers(ops, old(hm.Contents))
    ensures n == |MapAfter(ops, old(hm.Contents))|
    decreases |ops|
  {
    hide Slot, Represents, IsPrime, Findable, NoTombstones, MapAfter, MapAnswers, MapStep, Disciplined;
    UnfoldRun(ops, hm.Contents, clean);
    if ops == [] {
      n := hm.Count();
      return [], n;
    }
    ReadyToInsert(hm, ops[0], clean);
    ghost var m := hm.Contents;
    var first := Perform(hm, ops[0]);
    var rest;
    rest, n := Run(hm, ops[1..], clean && !(ops[0].Remove? && ops[0].key in m));
    answers := [first] + rest;
  }

  /** Whether an insertion of the key would keep the table standing for a map. */
  method Reaches<V>(hm: HashMap<V>, key: int) returns (can: bool)
    requires hm.Valid() && 0 <= key
    ensures can <==> hm.CanFind(key)
  {
    hide Slot, Represents, Findable;
    var present := hm.Get(key);
    var i, index := hm.SearchForInsert(key);
    if present.None? {
      AbsentIsFindable(hm.table[..], hm.Contents, hm.at, key);
      return true;
    }
    if i == hm.size {
      NoFreeSlot(hm.table[..], hm.Contents, hm.at, key);
    } else if hm.table[index].active {
      FoundThereIsFindable(hm.table[..], hm.Contents, hm.at, key, i);
    } else {
      FilledTooEarly(hm.table[..], hm.Contents, hm.at, key, i, present.value);
    }
    return i < hm.size && hm.table[index].active;
  }

  /** Over every run the table answers as a plain map would, up to the first insertion that would meet a tombstone
      before its key, wherever in the run that is. */
  method RunUntil<V>(hm: HashMap<V>, ops: seq<Op<V>>) returns (n: nat, answers: seq<Option<V>>)
    requires hm.Valid() && forall i :: 0 <= i < |ops| ==> 0 <= ops[i].key
    modifies hm, hm.table, hm.rng
    ensures hm.Valid() && n <= |ops|
    ensures hm.Contents == MapAfter(ops[..n], old(hm.Contents))
    ensures answers == MapAnswers(ops[..n], old(hm.Contents))
    ensures n < |ops| ==> ops[n].Insert? && !hm.CanFind(ops[n].key)
    decreases |ops|
  {
    hide Slot, Represents, IsPrime, Findable, NoTombstones, MapAfter, MapAnswers, MapStep;
    UnfoldRun(ops[..0], hm.Contents, true);
    if ops == [] {
      return 0, [];
    }
    var can := Reaches(hm, ops[0].key);
    if ops[0].Insert? && !can {
      return 0, [];
    }
    ghost var m := hm.Contents;
    var first := Perform(hm, ops[0]);
    n, answers := RunUntil(hm, ops[1..]);
    UnfoldRun(ops[..n + 1], m, true);
    assert ops[..n + 1][1..] == ops[1..][..n];
    return n + 1, [first] + answers;
  }

  lemma UnfoldRun<V>(ops: seq<Op<V>>, m: map<int, V>, clean: bool)
    ensures ops == [] ==> MapAfter(ops, m) == m && MapAnswers(ops, m) == []
    ensures ops != [] ==> MapAfter(ops, m) == MapAfter(ops[1..], MapStep(ops[0], m))
    ensures ops != [] ==> MapAnswers(ops, m) == MapAnswers([ops[0]], m) + MapAnswers(ops[1..], MapStep(ops[0], m))
    ensures ops != [] && Disciplined(ops, m, clean) ==>
              0 <= ops[0].key && (ops[0].Insert? ==> clean || ops[0].key !in m) &&
              Disciplined(ops[1..], MapStep(ops[0], m), clean && !(ops[0].Remove? && ops[0].key in m))
  {
  }

  lemma ReadyToInsert<V>(hm: HashMap<V>, op: Op<V>, clean: bool)
    requires hm.Valid() && 0 <= op.key
    requires op.Insert? ==> clean || op.key !in hm.Contents
    requires clean ==> hm.Clean()
    ensures op.Insert? ==> hm.CanFind(op.key)
  {
    if op.Insert? {
      if clean {
        CleanIsFindable(hm.table[..], hm.Contents, hm.at, op.key);
      } else {
        AbsentIsFindable(hm.table[..], hm.Contents, hm.at, op.key);
      }
    }
  }

  lemma ProbeOfKeyZero(j: nat)
    requires j < 5
    ensures Slot(0, j, 5) == j
  {
    SlotIs(0, j, 5);
    assert 0 % 5 + j * (0 % 3 + 1) == j;
  }

  lemma ProbeOfKeyFive()
    ensures Slot(5, 0, 5) == 0
  {
    assert Home(5, 5) == 0;
  }

  lemma ActiveKeyIsBound<V>(t: seq<Entry<V>>, m: map<int, V>, at: map<int, nat>, x: int)
    requires Represents(t, m, at) && 0 <= x < |t|
    ensures t[x].active ==> t[x].key in m.Keys && Slot(t[x].key, at[t[x].key], |t|) == x
  {
  }

  lemma PassedOver<V>(t: seq<Entry<V>>, m: map<int, V>, at: map<int, nat>, key: int, x: int)
    requires Represents(t, m, at) && key in m && x == Slot(key, 0, |t|)
    ensures 0 < at[key] ==> Passable(t[x], key)
  {
    hide Slot;
  }

  /** A key alone in a table without tombstones sits in its home slot. */
  lemma AloneAtHome<V>(t: seq<Entry<V>>, m: map<int, V>, at: map<int, nat>, key: int)
    requires Represents(t, m, at) && NoTombstones(t) && m.Keys == {key}
    ensures at[key] == 0
  {
    hide Slot;
    var x := Slot(key, 0, |t|);
    ActiveKeyIsBound(t, m, at, x);
    PassedOver(t, m, at, key, x);
  }

  lemma ZeroIsNotAtHome<V>(t: seq<Entry<V>>, m: map<int, V>, at: map<int, nat>)
    requires Represents(t, m, at) && |t| == 5 && 0 in m && 5 in m && at[5] == 0
    ensures at[0] != 0
  {
    hide Slot;
    ProbeOfKeyZero(0);
    ProbeOfKeyFive();
    assert Holds(t[0], 5, m[5]);
    assert Holds(t[Slot(0, at[0], 5)], 0, m[0]);
  }

  lemma FreedHomeHidesZero<V>(t: seq<Entry<V>>, m: map<int, V>, at: map<int, nat>)
    requires Represents(t, m, at) && |t| == 5 && m.Keys == {0} && at[0] != 0
    ensures !Findable(t, at, 0)
  {
    hide Slot;
    ProbeOfKeyZero(0);
    ProbeOfKeyZero(at[0]);
    ActiveKeyIsBound(t, m, at, 0);
    assert !t[Slot(0, 0, |t|)].active;
  }

  lemma FiveIsPrime()
    ensures IsPrime(5)
  {
    assert !Divides(2, 5) && !Divides(3, 5) && !Divides(4, 5);
  }

  /** Why runs need their discipline: in a table of five slots, keys 5 and 0 share their home slot;
      inserting 0 again after 5 was removed takes that slot although 0 is active in another. */
  method DuplicateAfterRemoval(rng: Random) returns (hm: HashMap<int>)
    modifies rng
    ensures fresh(hm) && Duplicated(hm.table[..], 0) && !hm.Valid() && hm.count == 2
  {
    FiveIsPrime();
    hm := new HashMap<int>(5, rng);
    assert hm.size == 5;
    hide IsPrime, Slot, Represents, NoTombstones, Findable, Duplicated;
    AbsentIsFindable(hm.table[..], hm.Contents, hm.at, 5);
    hm.Insert(50, 5);
    AloneAtHome(hm.table[..], hm.Contents, hm.at, 5);
    AbsentIsFindable(hm.table[..], hm.Contents, hm.at, 0);
    hm.Insert(10, 0);
    ZeroIsNotAtHome(hm.table[..], hm.Contents, hm.at);
    var removed := hm.Remove(5);
    FreedHomeHidesZero(hm.table[..], hm.Contents, hm.at);
    hm.Insert(20, 0);
  }
}
