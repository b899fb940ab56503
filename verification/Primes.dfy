/** Primes below 361, by trial division: enough for the tables of FIPS 180-4. */
module Primes {
  const LIMIT := 361

  predicate IsPrime(n: nat) {
    n >= 2 && forall d :: 2 <= d < n ==> n % d != 0
  }

  /** No prime below 19 divides `n`, except `n` itself. */
  predicate Rough(n: nat) {
    && (n % 2 == 0 ==> n == 2) && (n % 3 == 0 ==> n == 3) && (n % 5 == 0 ==> n == 5) && (n % 7 == 0 ==> n == 7)
    && (n % 11 == 0 ==> n == 11) && (n % 13 == 0 ==> n == 13) && (n % 17 == 0 ==> n == 17)
  }

  predicate NoneRough(n: nat, q: nat)
    decreases q - n
  {
    if n < q then !Rough(n) && NoneRough(n + 1, q) else true
  }

  predicate Gap(p: nat, q: nat) {
    p < q && Rough(q) && NoneRough(p + 1, q)
  }

  lemma Multiple(f: nat, k: nat)
    requires f > 0
    ensures f * k % f == 0
  {
    var q, r := f * k / f, f * k % f;
    assert f * k == f * q + r;
    assert f * (k - q) == r;
    assert k - q >= 1 ==> f * (k - q) >= f;
    assert k - q <= -1 ==> f * (k - q) + f <= 0;
  }

  /** A factor of a factor is a factor. */
  lemma Factor(n: nat, e: nat, f: nat)
    requires e > 0 && f > 0 && n % e == 0 && e % f == 0
    ensures n % f == 0
  {
    var k, m := n / e, e / f;
    assert n == e * k && e == f * m;
    assert n == f * (m * k);
    Multiple(f, m * k);
  }

  /** Every number from 2 to 18 has one of the small primes as a factor. */
  function SmallPrime(e: nat): (f: nat)
    requires 2 <= e <= 18
    ensures f in {2, 3, 5, 7, 11, 13, 17} && e % f == 0
  {
    if e % 2 == 0 then 2 else if e % 3 == 0 then 3 else if e % 5 == 0 then 5 else e
  }

  /** One of two factors is small. */
  lemma SmallFactor(n: nat, d: nat) returns (e: nat)
    requires 2 <= d < n < LIMIT && n % d == 0
    ensures 2 <= e <= 18 && e < n && n % e == 0
  {
    var k := n / d;
    assert n == d * k;
    assert k >= 2;
    if d <= 18 {
      e := d;
    } else {
      assert k >= 19 ==> d * k >= 19 * 19;
      e := k;
      Multiple(k, d);
      assert k < n;
    }
  }

  lemma RoughIsPrime(n: nat)
    requires 2 <= n < LIMIT
    ensures Rough(n) <==> IsPrime(n)
  {
    forall d | 2 <= d < n && n % d == 0
      ensures !Rough(n)
    {
      var e := SmallFactor(n, d);
      Factor(n, e, SmallPrime(e));
      assert SmallPrime(e) <= e;
    }
  }

  lemma {:induction false} NoneIsPrime(n: nat, q: nat, x: nat)
    requires NoneRough(n, q) && 2 <= n <= x < q <= LIMIT
    ensures !IsPrime(x)
    decreases q - n
  {
    if n == x {
      RoughIsPrime(x);
    } else {
      NoneIsPrime(n + 1, q, x);
    }
  }

  /** `q` is the prime after `p`. */
  ghost predicate NextPrime(p: nat, q: nat) {
    p < q && IsPrime(q) && forall x :: p < x < q ==> !IsPrime(x)
  }

  lemma GapIsNext(p: nat, q: nat)
    requires Gap(p, q) && 1 <= p && q < LIMIT
    ensures NextPrime(p, q)
  {
    RoughIsPrime(q);
    forall x | p < x < q
      ensures !IsPrime(x)
    {
      NoneIsPrime(p + 1, q, x);
    }
  }

  /** `ps` lists the first |ps| primes. */
  ghost predicate FirstPrimes(ps: seq<nat>) {
    && (forall i :: 0 <= i < |ps| ==> IsPrime(ps[i]))
    && (forall i, j :: 0 <= i < j < |ps| ==> ps[i] < ps[j])
    && (forall x, i :: 0 <= i < |ps| && x <= ps[i] && IsPrime(x) ==> x in ps)
  }

  predicate Chained(ps: seq<nat>) {
    forall i :: 0 <= i < |ps| - 1 ==> Gap(ps[i], ps[i + 1])
  }

  lemma ChainedAppend(a: seq<nat>, b: seq<nat>)
    requires Chained(a) && Chained(b) && a != [] && b != [] && Gap(a[|a| - 1], b[0])
    ensures Chained(a + b)
  {
    var ps := a + b;
    forall i | 0 <= i < |ps| - 1
      ensures Gap(ps[i], ps[i + 1])
    {
      if i >= |a| {
        assert ps[i] == b[i - |a|] && ps[i + 1] == b[i - |a| + 1];
      }
    }
  }

  lemma FirstSnoc(ps: seq<nat>, q: nat)
    requires FirstPrimes(ps) && ps != [] && NextPrime(ps[|ps| - 1], q)
    ensures FirstPrimes(ps + [q])
  {
    forall x: nat | x <= q && IsPrime(x)
      ensures x in ps + [q]
    {
      if x < q {
        assert x <= ps[|ps| - 1];
      }
    }
  }

  lemma FrontChained(ps: seq<nat>)
    requires Chained(ps) && |ps| > 1
    ensures Chained(ps[..|ps| - 1]) && Gap(ps[|ps| - 2], ps[|ps| - 1])
  {
    assert Gap(ps[|ps| - 2], ps[|ps| - 2 + 1]);
    var front := ps[..|ps| - 1];
    forall i | 0 <= i < |front| - 1
      ensures Gap(front[i], front[i + 1])
    {
      assert Gap(ps[i], ps[i + 1]);
    }
  }

  lemma OnlyTwo()
    ensures FirstPrimes([2])
  {
  }

  lemma {:induction false} ChainedIsFirst(ps: seq<nat>)
    requires Chained(ps) && ps != [] && ps[0] == 2 && forall i :: 0 <= i < |ps| ==> ps[i] < LIMIT
    ensures FirstPrimes(ps) && ps[|ps| - 1] >= 2
  {
    if |ps| == 1 {
      OnlyTwo();
      assert ps == [2];
    } else {
      FrontChained(ps);
      var front, q := ps[..|ps| - 1], ps[|ps| - 1];
      ChainedIsFirst(front);
      GapIsNext(ps[|ps| - 2], q);
      FirstSnoc(front, q);
      assert ps == front + [q];
    }
  }
}
