/** Digits of a number literal, as bytes of text and as numbers. */
module DecimalText {
  import opened Powers

  type byte = b: nat | b < 256

  /** The byte at a position; behind the end there are zeros. */
  function At(text: seq<byte>, i: nat): byte { if i < |text| then text[i] else 0 }

  predicate IsDigit(b: byte) { 48 <= b <= 57 }

  function DigitOf(b: byte): nat
    requires IsDigit(b)
  {
    b - 48
  }

  predicate AllDigits(ds: seq<nat>) { forall i :: 0 <= i < |ds| ==> ds[i] <= 9 }

  /** The number read by appending the decimal digits `ds` to `n`. */
  function Horner(n: nat, ds: seq<nat>): nat {
    if ds == [] then n else Horner(n, ds[..|ds| - 1]) * 10 + ds[|ds| - 1]
  }

  lemma HornerSnoc(n: nat, ds: seq<nat>, d: nat)
    ensures Horner(n, ds + [d]) == Horner(n, ds) * 10 + d
  {
    assert (ds + [d])[..|ds|] == ds;
  }

  /** Digits after the `k`-th count less than one unit of the `k`-th. */
  lemma {:induction false} HornerRange(n: nat, ds: seq<nat>)
    requires AllDigits(ds)
    ensures n * Pow(10, |ds|) <= Horner(n, ds) < (n + 1) * Pow(10, |ds|)
  {
    if ds != [] {
      var m := |ds| - 1;
      HornerRange(n, ds[..m]);
      PowStep(10, m);
      hide Horner, Pow;
      TimesTen(n, Pow(10, m));
      TimesTen(n + 1, Pow(10, m));
    } else {
      PowOne(10);
    }
  }

  lemma TimesTen(n: nat, p: nat)
    ensures n * (10 * p) == 10 * (n * p)
  {
  }

  lemma {:induction false} HornerConcat(n: nat, a: seq<nat>, b: seq<nat>)
    ensures Horner(n, a + b) == Horner(Horner(n, a), b)
  {
    if b == [] {
      assert a + b == a;
    } else {
      assert (a + b)[..|a + b| - 1] == a + b[..|b| - 1];
      HornerConcat(n, a, b[..|b| - 1]);
    }
  }

  lemma {:induction false} HornerZeros(n: nat, ds: seq<nat>)
    requires forall i :: 0 <= i < |ds| ==> ds[i] == 0
    ensures Horner(n, ds) == n * Pow(10, |ds|)
  {
    if ds == [] {
      PowOne(10);
    } else {
      var m := |ds| - 1;
      HornerZeros(n, ds[..m]);
      PowStep(10, m);
      TimesTen(n, Pow(10, m));
    }
  }

  /** The digits of `text[lo..hi]`, leaving out the decimal point at `dot`. */
  function DigitsOf(text: seq<byte>, lo: nat, hi: nat, dot: int): seq<nat>
    requires lo <= hi <= |text|
    requires forall j :: lo <= j < hi && j != dot ==> IsDigit(text[j])
    decreases hi - lo
  {
    if lo == hi then []
    else
      assert hi - 1 != dot ==> IsDigit(text[hi - 1]);
      DigitsOf(text, lo, hi - 1, dot) + (if hi - 1 == dot then [] else [DigitOf(text[hi - 1])])
  }

  lemma {:induction false} DigitsOfFacts(text: seq<byte>, lo: nat, hi: nat, dot: int)
    requires lo <= hi <= |text|
    requires forall j :: lo <= j < hi && j != dot ==> IsDigit(text[j])
    ensures AllDigits(DigitsOf(text, lo, hi, dot))
    ensures |DigitsOf(text, lo, hi, dot)| == hi - lo - (if lo <= dot < hi then 1 else 0)
    decreases hi - lo
  {
    if lo < hi { DigitsOfFacts(text, lo, hi - 1, dot); }
  }

  lemma {:induction false} DigitsOfPrefix(text: seq<byte>, lo: nat, mid: nat, hi: nat, dot: int)
    requires lo <= mid <= hi <= |text|
    requires forall j :: lo <= j < hi && j != dot ==> IsDigit(text[j])
    ensures DigitsOf(text, lo, mid, dot) <= DigitsOf(text, lo, hi, dot)
    decreases hi - mid
  {
    if mid < hi { DigitsOfPrefix(text, lo, mid, hi - 1, dot); }
  }
}
