/** Powers of natural numbers, and numbers of 64 bits. */
module Powers {

  type u64 = x: nat | x < 0x1_0000_0000_0000_0000

  function Pow(b: nat, n: nat): nat {
    if n == 0 then 1 else b * Pow(b, n - 1)
  }

  lemma PowOne(b: nat)
    ensures Pow(b, 0) == 1 && Pow(b, 1) == b
  {
    assert Pow(b, 1) == b * Pow(b, 0);
  }

  lemma PowStep(b: nat, n: nat)
    ensures Pow(b, n + 1) == b * Pow(b, n)
  {
  }

  lemma {:induction false} PowPositive(b: nat, n: nat)
    requires b > 0
    ensures Pow(b, n) > 0
  {
    if n > 0 { PowPositive(b, n - 1); }
  }

  lemma {:induction false} PowAdd(b: nat, m: nat, n: nat)
    ensures Pow(b, m + n) == Pow(b, m) * Pow(b, n)
  {
    if m > 0 {
      PowAdd(b, m - 1, n);
      MulAssoc(b, Pow(b, m - 1), Pow(b, n));
    }
  }

  lemma {:induction false} PowMul(b: nat, m: nat, n: nat)
    ensures Pow(b, m * n) == Pow(Pow(b, m), n)
  {
    if n == 0 {
      assert m * n == 0;
    } else {
      assert m * n == m + m * (n - 1);
      PowAdd(b, m, m * (n - 1));
      PowMul(b, m, n - 1);
    }
  }

  lemma {:induction false} PowMono(b: nat, m: nat, n: nat)
    requires b > 0 && m <= n
    ensures Pow(b, m) <= Pow(b, n)
  {
    if m < n {
      PowMono(b, m, n - 1);
      PowPositive(b, n - 1);
      assert Pow(b, n) == b * Pow(b, n - 1);
      MulGe(b, Pow(b, n - 1));
    }
  }

  /** A larger power of a base above 1 has the larger exponent. */
  lemma PowInverse(b: nat, m: nat, n: nat)
    requires b > 1 && Pow(b, m) < Pow(b, n)
    ensures m < n
  {
    if n <= m { PowMono(b, n, m); }
  }

  lemma {:induction false} PowBaseMono(a: nat, b: nat, n: nat)
    requires a <= b
    ensures Pow(a, n) <= Pow(b, n)
  {
    if n > 0 {
      PowBaseMono(a, b, n - 1);
      MulLe(a, b, Pow(a, n - 1), Pow(b, n - 1));
    }
  }

  lemma MulAssoc(a: int, b: int, c: int)
    ensures a * (b * c) == (a * b) * c
  {
  }

  lemma MulGe(a: nat, b: nat)
    requires a >= 1
    ensures a * b >= b
  {
  }

  lemma MulLe(a: nat, b: nat, c: nat, d: nat)
    requires a <= b && c <= d
    ensures a * c <= b * d
  {
    assert a * c <= b * c;
    assert b * c <= b * d;
  }

  lemma MulLt(a: nat, b: nat, c: nat)
    requires a < b && c > 0
    ensures a * c < b * c
  {
  }

  lemma TwoTo64()
    ensures Pow(2, 64) == 0x1_0000_0000_0000_0000
  {
    PowAdd(2, 32, 32);
    PowAdd(2, 16, 16);
    PowAdd(2, 8, 8);
    PowAdd(2, 4, 4);
    PowAdd(2, 2, 2);
    PowStep(2, 1);
    PowOne(2);
  }

  /** Ten cubed is below two to the tenth. */
  lemma TenToTwo(n: nat)
    ensures Pow(10, 3 * n) <= Pow(2, 10 * n)
  {
    PowMul(10, 3, n);
    PowMul(2, 10, n);
    assert Pow(10, 3) == 1000 && Pow(2, 10) == 1024 by {
      assert Pow(10, 2) == 100;
      assert Pow(2, 2) == 4 && Pow(2, 4) == 16 && Pow(2, 6) == 64 && Pow(2, 8) == 256;
    }
    PowBaseMono(1000, 1024, n);
  }
}
