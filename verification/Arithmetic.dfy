/** Products, quotients and powers of two. */
module Arithmetic {
  function Min(a: nat, b: nat): nat { if a < b then a else b }

  function Max(a: nat, b: nat): nat { if a < b then b else a }

  function Pow2(n: nat): (r: nat)
    ensures r > 0
  {
    if n == 0 then 1 else 2 * Pow2(n - 1)
  }

  // ----- products by repeated addition: what is proved about them stays linear -----

  /** The product `a * b`. */
  function Times(a: nat, b: nat): nat {
    if a == 0 then 0 else Times(a - 1, b) + b
  }

  lemma {:induction false} TimesIs(a: nat, b: nat)
    ensures Times(a, b) == a * b
  {
    if a > 0 {
      TimesIs(a - 1, b);
      assert a * b == (a - 1) * b + b;
    }
  }

  lemma {:induction false} TimesMonotone(a: nat, b: nat, m: nat)
    requires a < b
    ensures Times(a, m) + m <= Times(b, m)
    decreases b
  {
    if a < b - 1 {
      TimesMonotone(a, b - 1, m);
    }
  }

  lemma TimesAtMost(a: nat, b: nat, m: nat)
    requires a <= b
    ensures Times(a, m) <= Times(b, m)
  {
    if a < b {
      TimesMonotone(a, b, m);
    }
  }

  lemma {:induction false} TimesAdd(a: nat, b: nat, m: nat)
    ensures Times(a + b, m) == Times(a, m) + Times(b, m)
    decreases b
  {
    if b > 0 {
      TimesAdd(a, b - 1, m);
      assert a + b - 1 == a + (b - 1);
    }
  }

  /** Repeating blocks of blocks. */
  lemma {:induction false} TimesTimes(a: nat, b: nat, m: nat)
    ensures Times(Times(a, b), m) == Times(a, Times(b, m))
  {
    if a > 0 {
      TimesTimes(a - 1, b, m);
      TimesAdd(Times(a - 1, b), b, m);
    }
  }

  lemma {:induction false} TimesAtLeast(a: nat, m: nat, k: nat)
    requires m >= k
    ensures Times(a, m) >= Times(a, k)
  {
    if a > 0 {
      TimesAtLeast(a - 1, m, k);
    }
  }

  lemma {:induction false} TimesOne(a: nat)
    ensures Times(a, 1) == a
  {
    if a > 0 {
      TimesOne(a - 1);
    }
  }

  lemma {:induction false} TimesMod4(a: nat, m: nat)
    requires m % 4 == 0
    ensures Times(a, m) % 4 == 0
  {
    if a > 0 {
      TimesMod4(a - 1, m);
    }
  }

  lemma {:induction false} TimesMod32(a: nat, m: nat)
    requires m % 32 == 0
    ensures Times(a, m) % 32 == 0
  {
    if a > 0 {
      TimesMod32(a - 1, m);
    }
  }

  /** The quotient `x / m`, by repeated subtraction. */
  function Quot(x: nat, m: nat): nat
    requires m > 0
  {
    if x < m then 0 else Quot(x - m, m) + 1
  }

  /** The rest `x % m`, by repeated subtraction. */
  function Rest(x: nat, m: nat): nat
    requires m > 0
  {
    if x < m then x else Rest(x - m, m)
  }

  lemma {:induction false} QuotRest(x: nat, m: nat)
    requires m > 0
    ensures x == Times(Quot(x, m), m) + Rest(x, m) && Rest(x, m) < m
  {
    if x >= m {
      QuotRest(x - m, m);
    }
  }

  lemma QuotIs(x: nat, m: nat)
    requires m > 0
    ensures x / m == Quot(x, m) && x % m == Rest(x, m)
  {
    QuotRest(x, m);
    DivTimes(x, m);
    var p, q := x / m, Quot(x, m);
    if p < q {
      TimesMonotone(p, q, m);
    } else if q < p {
      TimesMonotone(q, p, m);
    }
  }

  /** A number is its quotient times the divisor, plus the rest. */
  lemma DivTimes(x: nat, m: nat)
    requires m > 0
    ensures x == Times(x / m, m) + x % m
  {
    TimesIs(x / m, m);
  }

  lemma MulMonotone(i: nat, j: nat, o: nat)
    requires i < j
    ensures i * o + o <= j * o
  {
    TimesIs(i, o);
    TimesIs(j, o);
    TimesMonotone(i, j, o);
  }

  /** A product divided by one factor, without a rest. */
  lemma TimesDiv(k: nat, m: nat)
    requires m > 0
    ensures Times(k, m) / m == k && Times(k, m) % m == 0
  {
    var x := Times(k, m);
    DivTimes(x, m);
    if x / m < k {
      TimesMonotone(x / m, k, m);
    } else if x / m > k {
      TimesMonotone(k, x / m, m);
    }
  }

  lemma DivideBack(i: nat, o: nat)
    requires o > 0
    ensures (i * o) / o == i
  {
    TimesIs(i, o);
    TimesDiv(i, o);
  }

  // ----- multiples of 8 and of the page size -----

  lemma EightSum(a: nat, b: nat)
    requires a % 8 == 0 && b % 8 == 0
    ensures (a + b) % 8 == 0
  {
    var p, q := a / 8, b / 8;
    assert a == 8 * p && b == 8 * q;
    assert a + b == 8 * (p + q);
  }

  lemma {:induction false} TimesMod8(a: nat, m: nat)
    requires m % 8 == 0
    ensures Times(a, m) % 8 == 0
  {
    if a > 0 {
      TimesMod8(a - 1, m);
      EightSum(Times(a - 1, m), m);
    }
  }

  /** A multiple of a multiple of 8 is a multiple of 8. */
  lemma MultipleOfEight(a: nat, m: nat)
    requires m > 0 && m % 8 == 0 && a % m == 0
    ensures a % 8 == 0
  {
    DivTimes(a, m);
    TimesMod8(a / m, m);
  }

  /** The rest of an address in the page that starts at `page`. */
  lemma PageRest(page: nat, a: nat)
    requires page % 4096 == 0 && page <= a < page + 4096
    ensures a - a % 4096 == page
  {
    var q, p := page / 4096, a / 4096;
    assert page == 4096 * q && a == 4096 * p + a % 4096;
    assert p == q;
  }

  /** The number of pages from one page to another. */
  lemma PagesBetween(b: nat, q: nat) returns (j: nat)
    requires b % 4096 == 0 && q % 4096 == 0 && b <= q
    ensures q == b + j * 4096
  {
    j := q / 4096 - b / 4096;
  }

  lemma PagesOn(page: nat, j: nat)
    requires page % 4096 == 0
    ensures (page + j * 4096) % 4096 == 0
  {
    var q := page / 4096;
    assert page == 4096 * q;
    assert page + j * 4096 == 4096 * (q + j);
  }

  lemma {:induction false} Pow2Eight(e: nat)
    requires e >= 3
    ensures Pow2(e) >= 8 && Pow2(e) % 8 == 0
  {
    if e > 3 {
      Pow2Eight(e - 1);
    } else {
      assert Pow2(3) == 2 * Pow2(2) && Pow2(2) == 2 * Pow2(1);
    }
  }

  /** A power of two is a multiple of 8 or divides 8. */
  lemma Pow2Multiple(e: nat)
    ensures if Pow2(e) >= 8 then Pow2(e) % 8 == 0 else Pow2(e) == 1 || Pow2(e) == 2 || Pow2(e) == 4
  {
    if e >= 3 {
      Pow2Eight(e);
    } else {
      assert Pow2(2) == 2 * Pow2(1) && Pow2(1) == 2 * Pow2(0);
    }
  }
}
