/** Products, quotients and remainders of two variables. They are defined by recursion, which keeps
    every proof that uses them within linear arithmetic; AreTheOperators says they are `*`, `/`, `%`. */
module Arith {
  function Times(a: nat, b: nat): nat { if a == 0 then 0 else Times(a - 1, b) + b }

  function Quot(a: nat, n: nat): (q: nat)
    requires 0 < n
    ensures q <= a
  {
    if a < n then 0 else 1 + Quot(a - n, n)
  }

  function Rem(a: nat, n: nat): (r: nat)
    requires 0 < n
    ensures r < n && r <= a
  {
    if a < n then a else Rem(a - n, n)
  }

  lemma {:induction false} TimesIsProduct(a: nat, b: nat)
    ensures Times(a, b) == a * b
  {
    if a > 0 {
      TimesIsProduct(a - 1, b);
    }
  }

  lemma {:induction false} QuotRem(a: nat, n: nat)
    requires 0 < n
    ensures a == Times(Quot(a, n), n) + Rem(a, n)
  {
    if a >= n {
      QuotRem(a - n, n);
    }
  }

  lemma ProductMono(a: int, b: int, n: nat)
    ensures a <= b ==> a * n <= b * n
  {
  }

  lemma DivisionIsUnique(a: nat, n: nat, q: nat, r: nat)
    requires 0 < n && a == q * n + r && r < n
    ensures a / n == q && a % n == r
  {
    assert a == n * (a / n) + a % n;
    ProductMono(a / n + 1, q, n);
    ProductMono(q + 1, a / n, n);
  }

  lemma AreTheOperators(a: nat, n: nat)
    ensures Times(a, n) == a * n
    ensures 0 < n ==> Quot(a, n) == a / n && Rem(a, n) == a % n
  {
    TimesIsProduct(a, n);
    if 0 < n {
      QuotRem(a, n);
      TimesIsProduct(Quot(a, n), n);
      DivisionIsUnique(a, n, Quot(a, n), Rem(a, n));
    }
  }

  lemma {:induction false} TimesMono(a: nat, b: nat, n: nat)
    ensures a <= b ==> Times(a, n) <= Times(b, n)
    ensures a < b ==> Times(a, n) + n <= Times(b, n)
    decreases b
  {
    if a < b {
      TimesMono(a, b - 1, n);
    }
  }

  lemma {:induction false} TimesMonoRight(a: nat, m: nat, n: nat)
    requires m <= n
    ensures Times(a, m) <= Times(a, n)
  {
    if a > 0 {
      TimesMonoRight(a - 1, m, n);
    }
  }

  lemma {:induction false} TimesOne(a: nat)
    ensures Times(a, 1) == a && Times(1, a) == a
  {
    if a > 0 {
      TimesOne(a - 1);
    }
  }

  /** A quotient and a remainder determine the number. */
  lemma {:induction false} QuotOfSum(q: nat, r: nat, n: nat)
    requires r < n
    ensures Quot(Times(q, n) + r, n) == q && Rem(Times(q, n) + r, n) == r
  {
    if q > 0 {
      QuotOfSum(q - 1, r, n);
      assert Times(q, n) + r - n == Times(q - 1, n) + r;
    }
  }

  /** Remainders may be taken early. */
  lemma {:induction false} RemShift(a: nat, b: nat, n: nat)
    requires 0 < n
    ensures Rem(Rem(a, n) + b, n) == Rem(a + b, n)
  {
    if a >= n {
      RemShift(a - n, b, n);
      assert Rem(a + b, n) == Rem(a - n + b, n);
    }
  }

  /** Numbers less than n apart have different remainders. */
  lemma RemDiffer(a: nat, b: nat, n: nat)
    requires a < b < a + n
    ensures Rem(a, n) != Rem(b, n)
  {
    QuotRem(a, n);
    QuotRem(b, n);
    TimesMono(Quot(a, n), Quot(b, n), n);
    TimesMono(Quot(b, n), Quot(a, n), n);
  }

  lemma QuotLess(a: nat, n: nat, m: nat)
    requires 0 < n && a < Times(m, n)
    ensures Quot(a, n) < m
  {
    QuotRem(a, n);
    TimesMono(m, Quot(a, n), n);
  }

  lemma QuotRemInjective(a: nat, b: nat, n: nat)
    requires 0 < n && Quot(a, n) == Quot(b, n) && Rem(a, n) == Rem(b, n)
    ensures a == b
  {
    QuotRem(a, n);
    QuotRem(b, n);
  }

  /** Blocks of n bytes needed to hold `size` bytes, in exact arithmetic. */
  function Ceil(size: nat, n: nat): nat
    requires 0 < n
  {
    Quot(size + n - 1, n)
  }

  lemma CeilBounds(size: nat, n: nat)
    requires 0 < n
    ensures size <= Times(Ceil(size, n), n) < size + n
    ensures Ceil(size, n) == 0 <==> size == 0
  {
    QuotRem(size + n - 1, n);
  }

  /** Ceil is the least number of blocks with room for the bytes. */
  lemma CeilLeast(size: nat, n: nat, c: nat)
    requires 0 < n
    ensures Ceil(size, n) <= c <==> size <= Times(c, n)
  {
    CeilBounds(size, n);
    TimesMono(c, Ceil(size, n), n);
    TimesMono(Ceil(size, n), c, n);
  }

  lemma CeilMono(a: nat, b: nat, n: nat)
    requires 0 < n && a <= b
    ensures Ceil(a, n) <= Ceil(b, n)
  {
    CeilBounds(b, n);
    CeilLeast(a, n, Ceil(b, n));
  }

  /** The block that holds byte j of a file is among its Ceil(size) blocks. */
  lemma ByteInBlocks(j: nat, size: nat, n: nat)
    requires 0 < n && j < size
    ensures Quot(j, n) < Ceil(size, n)
  {
    CeilBounds(size, n);
    QuotLess(j, n, Ceil(size, n));
  }
}
