/**
  The big integers of the number reader's slow path (`include/yyjson.c`): 64-bit chunks,
  least significant first, in a fixed array.  Every operation is proved to have the effect
  on the number that its comment in the source promises, and to keep the top chunk non-zero.
 */
module BigInts {
  import opened Powers
  import opened DecimalText

  const B: nat := 0x1_0000_0000_0000_0000
  const CHUNKS: nat := 64

  /** The number with the given chunks. */
  function Val(s: seq<u64>): nat {
    if s == [] then 0 else Val(s[..|s| - 1]) + s[|s| - 1] * Pow(B, |s| - 1)
  }

  lemma ValSnoc(s: seq<u64>, x: u64)
    ensures Val(s + [x]) == Val(s) + x * Pow(B, |s|)
  {
    assert (s + [x])[..|s|] == s;
  }

  lemma ValOne(s: seq<u64>)
    requires |s| == 1
    ensures Val(s) == s[0]
  {
    assert s[..0] == [];
    assert Pow(B, 0) == 1;
  }

  lemma {:induction false} ValBound(s: seq<u64>)
    ensures Val(s) < Pow(B, |s|)
  {
    if s != [] {
      var n := |s| - 1;
      ValBound(s[..n]);
      PowPositive(B, n);
      MulLe(s[n], B - 1, Pow(B, n), Pow(B, n));
      assert Pow(B, n + 1) == B * Pow(B, n);
    }
  }

  lemma {:induction false} ValZeros(s: seq<u64>)
    requires forall i :: 0 <= i < |s| ==> s[i] == 0
    ensures Val(s) == 0
  {
    if s != [] { ValZeros(s[..|s| - 1]); }
  }

  /** Chunks placed above `n` others weigh `Pow(B, n)` times as much. */
  lemma {:induction false} ValConcat(a: seq<u64>, b: seq<u64>)
    ensures Val(a + b) == Val(a) + Val(b) * Pow(B, |a|)
  {
    if b == [] {
      assert a + b == a;
    } else {
      var n := |b| - 1;
      assert (a + b)[..|a + b| - 1] == a + b[..n];
      ValConcat(a, b[..n]);
      PowAdd(B, n, |a|);
      assert Val(a + b) == Val(a + b[..n]) + b[n] * Pow(B, n + |a|);
      hide Pow, Val;
      Distribute(Val(b[..n]), b[n], Pow(B, n), Pow(B, |a|));
    }
  }

  lemma Distribute(v: int, x: int, p: int, q: int)
    ensures (v + x * p) * q == v * q + x * (p * q)
  {
  }

  lemma ValAboveZeros(z: seq<u64>, s: seq<u64>)
    requires forall i :: 0 <= i < |z| ==> z[i] == 0
    ensures Val(z + s) == Val(s) * Pow(B, |z|)
  {
    ValZeros(z);
    ValConcat(z, s);
  }

  lemma MovedUp(z: seq<u64>, s: seq<u64>)
    requires forall i :: 0 <= i < |z| ==> z[i] == 0
    requires s != []
    ensures Val(z + s) == Val(s) * Pow(B, |z|)
    ensures Val(s) > 0 && (|s| == 1 || s[|s| - 1] != 0) ==> (z + s)[|z + s| - 1] != 0
  {
    hide Pow, Val;
    ValAboveZeros(z, s);
    if Val(s) > 0 && (|s| == 1 || s[|s| - 1] != 0) { NormalTop(s); }
  }

  function Zeros(n: nat): seq<u64> { seq(n, _ => 0) }

  lemma Stacked(z: seq<u64>, rest: seq<u64>, n: nat)
    requires n <= |rest|
    ensures (z + rest)[..|z| + n] == z + rest[..n]
  {
  }

  /** The order of two numbers of equal length is that of the highest chunk in which they differ. */
  lemma ValOrder(a: seq<u64>, b: seq<u64>, k: nat)
    requires |a| == |b| && k < |a| && a[k + 1..] == b[k + 1..] && a[k] < b[k]
    ensures Val(a) < Val(b)
  {
    hide Pow, Val;
    ValSplit(a, k);
    ValSplit(b, k);
    ValBound(a[..k]);
    HigherChunk(a[k], b[k], Pow(B, k));
  }

  lemma ValSplit(s: seq<u64>, k: nat)
    requires k < |s|
    ensures Val(s) == Val(s[..k]) + s[k] * Pow(B, k) + Val(s[k + 1..]) * Pow(B, k + 1)
  {
    hide Pow, Val;
    var low := s[..k + 1];
    assert s == low + s[k + 1..] && low == s[..k] + [s[k]];
    ValConcat(low, s[k + 1..]);
    ValSnoc(s[..k], s[k]);
  }

  lemma HigherChunk(x: nat, y: nat, p: nat)
    requires x < y
    ensures x * p + p <= y * p
  {
    MulLe(x + 1, y, p, p);
  }

  // ---------------------------------------------------------------- powers of ten

  /** `u64_pow10_table` */
  const POW10: seq<u64> := [
    0x1, 0xA, 0x64, 0x3E8, 0x2710, 0x186A0, 0xF4240, 0x989680, 0x5F5E100, 0x3B9ACA00,
    0x2540BE400, 0x174876E800, 0xE8D4A51000, 0x9184E72A000, 0x5AF3107A4000, 0x38D7EA4C68000,
    0x2386F26FC10000, 0x16345785D8A0000, 0xDE0B6B3A7640000, 0x8AC7230489E80000]

  lemma {:induction false} Pow10Table(i: nat)
    requires i < 20
    ensures POW10[i] == Pow(10, i) && POW10[i] != 0
  {
    if i == 0 {
      PowOne(10);
    } else {
      Pow10Table(i - 1);
      PowStep(10, i - 1);
      hide Pow;
      assert POW10[i] == 10 * POW10[i - 1];
    }
  }

  /** One multiplication by the table entry `k` in the middle of a multiplication by 10^exp. */
  lemma Pow10Round(v: nat, exp: nat, e: nat, k: nat)
    requires k <= e <= exp && k < 20 && v * Pow(10, exp) < Pow(B, CHUNKS)
    ensures v * Pow(10, exp - e) * POW10[k] == v * Pow(10, exp - (e - k)) < Pow(B, CHUNKS)
    ensures POW10[k] != 0
  {
    hide Pow;
    Pow10Table(k);
    PowAdd(10, exp - e, k);
    PowMono(10, exp - (e - k), exp);
    MulAssoc(v, Pow(10, exp - e), Pow(10, k));
    MulLe(v, v, Pow(10, exp - (e - k)), Pow(10, exp));
  }

  // ---------------------------------------------------------------- shifting

  /** The bits of `x` that a left shift by the bits of `q` moves out, where `q * r == B`. */
  function High(x: nat, r: nat): nat
    requires r > 0
  {
    x / r
  }

  /** The bits that stay. */
  function Low(x: nat, q: nat): nat { x * q % B }

  function Below(s: seq<u64>, r: nat, j: nat): nat
    requires r > 0 && j <= |s|
  {
    if j > 0 then High(s[j - 1], r) else 0
  }

  /** Chunk `j` of `s` shifted left: its own low bits moved up, and the high bits of the
      chunk below.  The two bit ranges do not overlap, so their bitwise or is their sum. */
  function ShiftedChunk(s: seq<u64>, q: nat, r: nat, j: nat): nat
    requires r > 0 && j <= |s|
  {
    (if j < |s| then Low(s[j], q) else 0) + Below(s, r, j)
  }

  lemma ShiftSplit(x: u64, q: nat, r: nat)
    requires q > 0 && r > 0 && q * r == B
    ensures Low(x, q) + High(x, r) * B == x * q
    ensures Low(x, q) <= B - q
  {
    var k, m := x / r, x % r;
    assert x == k * r + m;
    SplitProduct(k, m, q, r);
    assert m * q <= (r - 1) * q by { MulLe(m, r - 1, q, q); }
    assert (r - 1) * q == B - q by { Swap(r, q, 1); }
    DivModUnique(x * q, k, m * q);
  }

  lemma HighBound(x: u64, q: nat, r: nat)
    requires q > 0 && r > 0 && q * r == B
    ensures High(x, r) < q
  {
    assert x / r * r <= x;
    if x / r >= q { MulLe(q, x / r, r, r); }
  }

  lemma SplitProduct(k: int, m: int, q: int, r: int)
    requires q * r == B
    ensures (k * r + m) * q == k * B + m * q
  {
    MulAssoc(k, r, q);
    assert r * q == q * r;
  }

  lemma DivModUnique(n: nat, k: nat, m: nat)
    requires n == k * B + m && m < B
    ensures n / B == k && n % B == m
  {
  }

  /** `t` holds the chunks of the shifted number, one more than `s` has. */
  predicate IsShift(s: seq<u64>, q: nat, r: nat, t: seq<u64>) {
    r > 0 && |t| == |s| + 1 && forall j :: 0 <= j <= |s| ==> t[j] == ShiftedChunk(s, q, r, j)
  }

  lemma {:induction false} ShiftPrefix(s: seq<u64>, q: nat, r: nat, t: seq<u64>, n: nat)
    requires IsShift(s, q, r, t) && q > 0 && q * r == B && n <= |s|
    ensures Val(t[..n]) + Below(s, r, n) * Pow(B, n) == Val(s[..n]) * q
  {
    if n > 0 {
      hide Pow, Val, Low, High;
      var k := n - 1;
      ShiftPrefix(s, q, r, t, k);
      assert t[..n] == t[..k] + [t[k]] && s[..n] == s[..k] + [s[k]];
      ValSnoc(t[..k], t[k]);
      ValSnoc(s[..k], s[k]);
      PowStep(B, k);
      ShiftSplit(s[k], q, r);
      MulStep(Val(t[..k]), Val(s[..k]), s[k], q, Below(s, r, k), Pow(B, k), t[k], High(s[k], r));
    } else {
      assert t[..0] == [] && s[..0] == [];
    }
  }

  lemma ShiftValue(s: seq<u64>, q: nat, r: nat, t: seq<u64>)
    requires IsShift(s, q, r, t) && q > 0 && q * r == B && s != []
    ensures Val(t) == Val(s) * q
  {
    hide Pow, Val, Low, High;
    var n := |s|;
    ShiftPrefix(s, q, r, t, n);
    assert t == t[..n] + [t[n]] && s[..n] == s;
    ValSnoc(t[..n], t[n]);
  }

  /** Either the extra chunk or the one below it carries the old top bits. */
  lemma ShiftTop(s: seq<u64>, q: nat, r: nat, t: seq<u64>)
    requires IsShift(s, q, r, t) && q > 0 && q * r == B && s != [] && s[|s| - 1] != 0
    ensures t[|s|] == 0 ==> t[|s| - 1] != 0
  {
    hide Low, High;
    var n := |s|;
    ShiftSplit(s[n - 1], q, r);
    MulGe(s[n - 1], q);
    assert t[n] == High(s[n - 1], r) && t[n - 1] >= Low(s[n - 1], q);
  }

  /** A positive number without a superfluous chunk has a non-zero top chunk. */
  lemma NormalTop(s: seq<u64>)
    requires s != [] && Val(s) > 0 && (|s| == 1 || s[|s| - 1] != 0)
    ensures s[|s| - 1] != 0
  {
    if |s| == 1 { ValOne(s); }
  }

  // ---------------------------------------------------------------- reading digits

  /** What the number reader hands over: `text[cut..end]` are the digits after the first 19,
      with at most one decimal point among them, at `dot`, neither first nor last. */
  predicate CutText(text: seq<byte>, cut: nat, end: nat, dot: int) {
    && cut < end <= |text| && dot != cut && dot != end - 1
    && forall j :: cut <= j < end && j != dot ==> IsDigit(text[j])
  }

  function DigitCount(cut: nat, end: nat, dot: int): int {
    19 + (end - cut) - (if cut < dot < end then 1 else 0)
  }

  /** Where reading stops: at `end`, unless that makes more than 768 digits. */
  function KeptEnd(cut: nat, end: nat, dot: int): int {
    var total := DigitCount(cut, end, dot);
    if total <= 768 then end
    else
      var e := end - (total - 769);
      if dot + 1 == e then e - 1 else e
  }

  /** How many digits the exponent is corrected for. */
  function BufScale(cut: nat, end: nat, dot: int): int {
    if DigitCount(cut, end, dot) > 768 then 750 else DigitCount(cut, end, dot) - 19
  }

  lemma KeptEndFacts(text: seq<byte>, cut: nat, end: nat, dot: int)
    requires CutText(text, cut, end, dot)
    ensures cut < KeptEnd(cut, end, dot) <= end && KeptEnd(cut, end, dot) - 1 != dot
    ensures KeptEnd(cut, end, dot) - cut <= 752
    ensures |DigitsOf(text, cut, KeptEnd(cut, end, dot), dot)| <= 751
  {
    DigitsOfFacts(text, cut, KeptEnd(cut, end, dot), dot);
  }

  /** All digits up to `end`, or, if some were cut, these with the last replaced by 1. */
  function ReadText(lead: nat, text: seq<byte>, cut: nat, end: nat, dot: int, cutShort: bool): nat
    requires CutText(text, cut, end, dot)
  {
    if cutShort then Horner(lead, DigitsOf(text, cut, end - 1, dot)) * 10 + 1
    else Horner(lead, DigitsOf(text, cut, end, dot))
  }

  /** The number read. */
  function BufValue(lead: nat, text: seq<byte>, cut: nat, end: nat, dot: int): nat
    requires CutText(text, cut, end, dot)
  {
    KeptEndFacts(text, cut, end, dot);
    ReadText(lead, text, cut, KeptEnd(cut, end, dot), dot, DigitCount(cut, end, dot) > 768)
  }

  lemma TenDigits(lead: nat, n: nat)
    requires lead < Pow(10, 19) && n <= 751
    ensures (lead + 1) * Pow(10, n) * 10 < Pow(B, CHUNKS)
  {
    hide Pow;
    PowAdd(10, 19, n);
    PowStep(10, 19 + n);
    PowMono(10, 20 + n, 771);
    TenToTwo(257);
    PowMono(2, 2570, 4032);
    TwoTo64();
    PowMul(2, 64, 63);
    PowStep(B, 63);
    PowPositive(B, 63);
    MulLe(lead + 1, Pow(10, 19), Pow(10, n), Pow(10, n));
  }

  lemma DigitRead(lead: nat, text: seq<byte>, cut: nat, end: nat, cur: nat, dot: int)
    requires CutText(text, cut, end, dot) && cut <= cur < end && cur != dot
    requires |DigitsOf(text, cut, end, dot)| <= 751 && lead < Pow(10, 19)
    ensures IsDigit(text[cur])
    ensures Horner(lead, DigitsOf(text, cut, cur + 1, dot)) ==
            Horner(lead, DigitsOf(text, cut, cur, dot)) * 10 + DigitOf(text[cur])
    ensures Horner(lead, DigitsOf(text, cut, cur, dot)) * 10 + 9 < Pow(B, CHUNKS)
  {
    hide Pow;
    assert IsDigit(text[cur]);
    var ds := DigitsOf(text, cut, cur, dot);
    HornerSnoc(lead, ds, DigitOf(text[cur]));
    assert DigitsOf(text, cut, cur + 1, dot) == ds + [DigitOf(text[cur])];
    DigitsOfFacts(text, cut, cur, dot);
    DigitsOfPrefix(text, cut, cur, end, dot);
    HornerRange(lead, ds);
    TenDigits(lead, |ds|);
  }

  /** One more digit fits beside the `len` waiting ones. */
  lemma DigitRoom(v: nat, len: nat, val: nat)
    requires len < 19 && val < Pow(10, len)
    ensures val * 10 + 9 < Pow(10, len + 1) < B
    ensures v * Pow(10, len + 1) == v * Pow(10, len) * 10
  {
    hide Pow;
    PowStep(10, len);
    Pow10Table(19);
    PowMono(10, len + 1, 19);
    TimesTen(v, Pow(10, len));
  }

  lemma DotSkipped(text: seq<byte>, cut: nat, end: nat, cur: nat, dot: int)
    requires CutText(text, cut, end, dot) && cut <= cur < end && cur == dot
    ensures DigitsOf(text, cut, cur + 1, dot) == DigitsOf(text, cut, cur, dot)
  {
  }

  lemma DropTop(t: seq<u64>)
    requires t != [] && t[|t| - 1] == 0
    ensures Val(t[..|t| - 1]) == Val(t)
  {
  }

  /** The shifted chunks `t`, without a highest chunk that is zero, on top of `z`. */
  lemma ShiftedUp(s: seq<u64>, t: seq<u64>, v: nat, z: seq<u64>, top: nat)
    requires s != [] && |t| == |s| + 1 && Val(t) == v
    requires Val(s) > 0 && (|s| == 1 || s[|s| - 1] != 0) && t[|s|] == 0 ==> t[|s| - 1] != 0
    requires forall i :: 0 <= i < |z| ==> z[i] == 0
    requires top == if t[|s|] > 0 then 1 else 0
    ensures Val(z + t[..|s| + top]) == v * Pow(B, |z|)
    ensures Val(s) > 0 && (|s| == 1 || s[|s| - 1] != 0) ==> (z + t[..|s| + top])[|z| + |s| + top - 1] != 0
  {
    hide Pow, Val;
    var kept := t[..|s| + top];
    if top == 0 { DropTop(t); } else { assert kept == t; }
    ValAboveZeros(z, kept);
  }

  lemma ShiftFacts(s: seq<u64>, q: nat, r: nat, t: seq<u64>)
    requires s != [] && q > 0 && r > 0 && q * r == B && IsShift(s, q, r, t)
    ensures |t| == |s| + 1 && Val(t) == Val(s) * q
    ensures Val(s) > 0 && (|s| == 1 || s[|s| - 1] != 0) && t[|s|] == 0 ==> t[|s| - 1] != 0
  {
    assert |t| == |s| + 1;
    hide Pow, Val, IsShift;
    ShiftValue(s, q, r, t);
    if Val(s) > 0 && (|s| == 1 || s[|s| - 1] != 0) {
      NormalTop(s);
      ShiftTop(s, q, r, t);
    }
  }

  function Larger(a: nat, b: nat): nat { if a < b then b else a }

  class BigInt {
    var used: nat
    const bits: array<u64>
    ghost var touched: nat  // one more than the highest index that was ever written

    ghost predicate Valid()
      reads this
    {
      bits.Length == CHUNKS && 1 <= used <= touched <= CHUNKS
    }

    ghost function Value(): nat
      requires Valid()
      reads this, bits
    {
      Val(bits[..used])
    }

    /** No superfluous chunk. */
    ghost predicate Normal()
      requires Valid()
      reads this, bits
    {
      used == 1 || bits[used - 1] != 0
    }

    constructor ()
      ensures Valid() && Value() == 0 && Normal() && fresh(bits) && touched == 1
    {
      bits := new u64[CHUNKS](_ => 0);
      used, touched := 1, 1;
      new;
      ValOne(bits[..1]);
    }

    /** `bigint_set_u64` */
    method SetU64(val: u64)
      requires Valid()
      modifies this, bits
      ensures Valid() && Value() == val && Normal() && used == 1 && touched == old(touched)
    {
      used := 1;
      bits[0] := val;
      ValOne(bits[..1]);
    }

    /** A carry out of the top chunk starts a new one. */
    method Push(carry: u64)
      requires Valid() && carry != 0 && Value() + carry * Pow(B, used) < Pow(B, CHUNKS)
      modifies this, bits
      ensures Valid() && Value() == old(Value()) + carry * Pow(B, old(used)) && Normal()
      ensures used == old(used) + 1 && touched == Larger(old(touched), used)
    {
      hide Pow, Val;
      ghost var low := bits[..used];
      if used == CHUNKS { MulGe(carry, Pow(B, CHUNKS)); assert false; }
      bits[used] := carry;
      used := used + 1;
      touched := Larger(touched, used);
      assert bits[..used] == low + [carry];
      ValSnoc(low, carry);
    }

    /** `bigint_add_u64` */
    method AddU64(val: u64)
      requires Valid() && Value() + val < Pow(B, CHUNKS)
      modifies this, bits
      ensures Valid() && Value() == old(Value()) + val
      ensures old(Normal()) ==> Normal()
      ensures old(used) <= used && touched <= Larger(old(touched), used)
    {
      hide Pow, Val;
      ghost var s := bits[..used];
      var num := bits[0];
      var add := (num + val) % B;
      bits[0] := add;
      ghost var t := bits[..used];
      ValOne(s[..1]);
      ValOne(t[..1]);
      Rest(s, t, 1, add - num);
      if add >= num || add >= val { return; }
      Carry();
    }

    /** The carry loop of `bigint_add_u64`: adds one to the second chunk. */
    method Carry()
      requires Valid() && Value() + B < Pow(B, CHUNKS)
      modifies this, bits
      ensures Valid() && Value() == old(Value()) + B
      ensures old(Normal()) ==> Normal()
      ensures old(used) <= used && touched <= Larger(old(touched), used)
    {
      hide Pow, Val;
      ghost var s := bits[..used];
      PowOne(B);
      assert bits[..1] == s[..1];
      var idx, max := 1, used;
      while idx < max
        modifies bits
        invariant 1 <= idx <= max == used == |s| && bits[idx..used] == s[idx..]
        invariant Val(bits[..idx]) + Pow(B, idx) == Val(s[..idx]) + B
      {
        assert s[..idx + 1] == s[..idx] + [s[idx]] && bits[idx] == bits[idx..used][0] == s[idx];
        assert s[idx..][1..] == s[idx + 1..];
        CarryNext(bits[..idx], s[..idx], s[idx]);
        if bits[idx] != B - 1 {
          StopCarry(idx, s);
          return;
        }
        StoreChunk(idx, 0);
        idx := idx + 1;
      }
      assert s[..idx] == s;
      assert bits[..used] == bits[..idx];
      Push(1);
    }

    /** The chunk that takes the carry. */
    method StopCarry(idx: nat, ghost s: seq<u64>)
      requires Valid() && idx < used == |s| && bits[idx..used] == s[idx..] && bits[idx] == s[idx] != B - 1
      requires Val(bits[..idx] + [s[idx] + 1]) == Val(s[..idx + 1]) + B
      modifies bits
      ensures Value() == Val(s) + B && (s[used - 1] != 0 ==> bits[used - 1] != 0)
    {
      hide Val;
      assert s[idx..][1..] == s[idx + 1..];
      StoreChunk(idx, bits[idx] + 1);
      ghost var t := bits[..used];
      assert t[..idx + 1] == bits[..idx + 1] && t[idx + 1..] == bits[idx + 1..used];
      Rest(s, t, idx + 1, B);
      if idx + 1 < used { assert bits[used - 1] == t[idx + 1..][used - idx - 2] == s[idx + 1..][used - idx - 2]; }
    }

    /** One round of the multiplication: chunk `idx` becomes the low half of its product plus
        the carry, the high half is the next carry. */
    method MulChunk(idx: nat, val: u64, carry: u64, ghost s: seq<u64>) returns (hi: u64)
      requires Valid() && idx < used == |s| && bits[idx..used] == s[idx..]
      requires Val(bits[..idx]) + carry * Pow(B, idx) == Val(s[..idx]) * val
      modifies bits
      ensures bits[idx + 1..used] == s[idx + 1..]
      ensures Val(bits[..idx + 1]) + hi * Pow(B, idx + 1) == Val(s[..idx + 1]) * val
      ensures hi == 0 && s[idx] != 0 && val != 0 ==> bits[idx] != 0
    {
      hide Pow, Val;
      ghost var low := bits[..idx];
      assert bits[idx] == bits[idx..used][0] == s[idx];
      var lo;
      lo, hi := Product(bits[idx], val, carry);
      MulledUp(low, s[..idx], s[idx], val, carry, lo, hi);
      StoreChunk(idx, lo);
      assert s[..idx + 1] == s[..idx] + [s[idx]] && s[idx..][1..] == s[idx + 1..];
    }

    /** Writes one chunk. */
    method StoreChunk(idx: nat, lo: u64)
      requires Valid() && idx < used
      modifies bits
      ensures bits[..idx + 1] == old(bits[..idx]) + [lo] && bits[idx + 1..used] == old(bits[idx..used])[1..] && bits[idx] == lo
    {
      bits[idx] := lo;
    }

    /** `bigint_mul_u64` */
    method MulU64(val: u64)
      requires Valid() && val != 0 && Value() * val < Pow(B, CHUNKS)
      modifies this, bits
      ensures Valid() && Value() == old(Value()) * val
      ensures old(Normal()) ==> Normal()
      ensures old(used) <= used && touched <= Larger(old(touched), used)
    {
      hide Pow, Val;
      ghost var s := bits[..used];
      var idx, max := 0, used;
      var carry: u64 := 0;
      while idx < max
        invariant 0 <= idx <= max == used == |s| && bits[..used] == s
        invariant forall j :: 0 <= j < idx ==> s[j] == 0
      {
        if bits[idx] != 0 { break; }
        idx := idx + 1;
      }
      assert bits[..idx] == s[..idx];
      ValZeros(s[..idx]);
      while idx < max
        modifies bits
        invariant 0 <= idx <= max == used == |s| && bits[idx..used] == s[idx..]
        invariant Val(bits[..idx]) + carry * Pow(B, idx) == Val(s[..idx]) * val
        invariant idx > 0 && carry == 0 && s[idx - 1] != 0 ==> bits[idx - 1] != 0
      {
        carry := MulChunk(idx, val, carry, s);
        idx := idx + 1;
      }
      assert s[..idx] == s;
      assert bits[..used] == bits[..idx];
      if carry != 0 { Push(carry); }
    }

    /** `bigint_mul_pow2` */
    method MulPow2(exp: nat)
      requires Valid() && used + exp / 64 < CHUNKS
      modifies this, bits
      ensures Valid() && Value() == old(Value()) * Pow(2, exp)
      ensures old(Normal()) && old(Value()) > 0 ==> Normal()
      ensures old(used) <= used <= old(used) + exp / 64 + 1 && touched <= Larger(old(touched), old(used) + exp / 64 + 1)
    {
      hide Pow, Val;
      var shft, move := exp % 64, exp / 64;
      ghost var s := bits[..used];
      PowAdd(2, shft, 64 * move);
      PowMul(2, 64, move);
      TwoTo64();
      if shft == 0 {
        PowOne(2);
        MoveUp(move);
        return;
      }
      PowAdd(2, shft, 64 - shft);
      PowPositive(2, shft);
      PowPositive(2, 64 - shft);
      ShiftUp(Pow(2, shft), Pow(2, 64 - shft), move);
      MulAssoc(Val(s), Pow(2, shft), Pow(B, move));
    }

    /** Whole chunks: the branch of `bigint_mul_pow2` without a bit shift. */
    method MoveUp(move: nat)
      requires Valid() && used + move <= CHUNKS
      modifies this, bits
      ensures Valid() && Value() == old(Value()) * Pow(B, move)
      ensures old(Normal()) && old(Value()) > 0 ==> Normal()
      ensures used == old(used) + move && touched == Larger(old(touched), used)
    {
      hide Pow, Val;
      ghost var s := bits[..used];
      MoveChunks(move);
      ghost var rest := bits[move..];
      assert rest[..|s|] == s;
      ClearLow(move);
      Stacked(Zeros(move), rest, |s|);
      MovedUp(Zeros(move), s);
      used := used + move;
      touched := Larger(touched, used);
      if s[|s| - 1] != 0 { assert bits[used - 1] == bits[..used][used - 1] == s[|s| - 1]; }
    }

    method MoveChunks(move: nat)
      requires Valid() && used + move <= CHUNKS
      modifies bits
      ensures bits[move..used + move] == old(bits[..used])
    {
      var idx := used;
      while idx > 0
        invariant 0 <= idx <= used
        invariant forall j :: 0 <= j < idx ==> bits[j] == old(bits[j])
        invariant forall j :: idx + move <= j < used + move ==> bits[j] == old(bits[j - move])
      {
        idx := idx - 1;
        bits[idx + move] := bits[idx];
      }
    }

    method ClearLow(move: nat)
      requires Valid() && move <= CHUNKS
      modifies bits
      ensures bits[..] == Zeros(move) + old(bits[move..])
    {
      var m := move;
      while m > 0
        invariant 0 <= m <= move
        invariant forall j :: m <= j < move ==> bits[j] == 0
        invariant bits[move..] == old(bits[move..])
      {
        m := m - 1;
        bits[m] := 0;
      }
      assert bits[..] == bits[..move] + bits[move..];
    }

    /** The branch of `bigint_mul_pow2` that shifts bits: `q` is two to the bit shift and
        `r` two to the rest of a chunk. */
    method ShiftUp(q: nat, r: nat, move: nat)
      requires Valid() && used + move < CHUNKS && q > 0 && r > 0 && q * r == B
      modifies this, bits
      ensures Valid() && Value() == old(Value()) * q * Pow(B, move)
      ensures old(Normal()) && old(Value()) > 0 ==> Normal()
      ensures old(used) <= used <= old(used) + move + 1 && touched == Larger(old(touched), old(used) + move + 1)
    {
      hide Pow, Val, IsShift;
      ghost var s := bits[..used];
      ShiftChunks(q, r, move);
      var top := if bits[used + move] > 0 then 1 else 0;
      ghost var rest := bits[move..];
      ghost var t := rest[..|s| + 1];
      assert bits[move..used + move + 1] == t && t[..|s| + top] == rest[..|s| + top];
      touched := Larger(touched, used + move + 1);
      used := used + move + top;
      ClearLow(move);
      Stacked(Zeros(move), rest, |s| + top);
      ShiftFacts(s, q, r, t);
      ShiftedUp(s, t, Val(s) * q, Zeros(move), top);
    }

    /** The loop that shifts bits. */
    method ShiftChunks(q: nat, r: nat, move: nat)
      requires Valid() && used + move < CHUNKS && q > 0 && r > 0 && q * r == B
      modifies bits
      ensures IsShift(old(bits[..used]), q, r, bits[move..used + move + 1])
    {
      ghost var s := bits[..used];
      var idx := used;
      bits[idx] := 0;
      while idx > 0
        invariant 0 <= idx <= used == |s|
        invariant idx == used ==> bits[used] == 0
        invariant forall j :: 0 <= j <= idx && j < used ==> bits[j] == s[j]
        invariant forall j :: idx < j <= used ==> bits[j + move] == ShiftedChunk(s, q, r, j)
      {
        var low, high := bits[idx] * q % B, bits[idx - 1] / r;
        ShiftSplit(bits[idx], q, r);
        HighBound(bits[idx - 1], q, r);
        bits[idx + move] := low + high;
        idx := idx - 1;
      }
      bits[move] := bits[0] * q % B;
    }

    /** `bigint_mul_pow10` */
    method MulPow10(exp: nat)
      requires Valid() && Value() * Pow(10, exp) < Pow(B, CHUNKS)
      modifies this, bits
      ensures Valid() && Value() == old(Value()) * Pow(10, exp)
      ensures old(Normal()) ==> Normal()
      ensures old(used) <= used && touched <= Larger(old(touched), used)
    {
      hide Pow, Val;
      ghost var v := Value();
      var e := exp;
      PowOne(10);
      while e >= 19
        invariant Valid() && 0 <= e <= exp && Value() == v * Pow(10, exp - e)
        invariant old(Normal()) ==> Normal()
        invariant old(used) <= used && touched <= Larger(old(touched), used)
      {
        Pow10Round(v, exp, e, 19);
        MulU64(POW10[19]);
        e := e - 19;
      }
      if e != 0 {
        Pow10Round(v, exp, e, e);
        MulU64(POW10[e]);
      }
    }

    /** `big = big * 10^len + val` */
    method Flush(len: nat, val: u64)
      requires Valid() && Value() * Pow(10, len) + val < Pow(B, CHUNKS)
      modifies this, bits
      ensures Valid() && Value() == old(Value()) * Pow(10, len) + val
      ensures old(Normal()) ==> Normal()
      ensures old(used) <= used && touched <= Larger(old(touched), used)
    {
      hide Pow, Val;
      MulPow10(len);
      AddU64(val);
    }

    /** The part of `bigint_set_buf` for a literal none of whose digits were cut is
        `SetU64(sig)`; this is the rest: `lead` holds the first 19 digits, the others are read
        from `text[cut..sigEnd]`. */
    method SetDigits(lead: u64, text: seq<byte>, cut: nat, sigEnd: nat, dot: int) returns (dropped: nat)
      requires Valid() && CutText(text, cut, sigEnd, dot) && 1 <= lead < Pow(10, 19)
      modifies this, bits
      ensures Valid() && Normal() && Value() == BufValue(lead, text, cut, sigEnd, dot)
      ensures dropped == BufScale(cut, sigEnd, dot) && touched <= Larger(old(touched), used)
    {
      hide Pow, Val, Horner, DigitsOf;
      var hasDot := cut < dot < sigEnd;
      var total := 19 + (sigEnd - cut) - (if hasDot then 1 else 0);
      var cutShort := total > 768;
      var end := sigEnd;
      if cutShort {
        end := end - (total - 769);
        if dot + 1 == end { end := end - 1; }
        total := 769;
      }
      dropped := total - 19;
      KeptEndFacts(text, cut, sigEnd, dot);
      SetU64(lead);
      ReadDigits(lead, text, cut, end, dot, cutShort);
    }

    /** `h` is the number read so far, of which the last `len` digits wait in `val`. */
    ghost predicate Waits(h: nat, len: nat, val: nat)
      requires Valid()
      reads this, bits
    {
      len < 19 && val < Pow(10, len) && Value() * Pow(10, len) + val == h
    }

    /** One digit of `bigint_set_buf`'s loop. */
    method TakeDigit(ghost h: nat, d: nat, last: bool, cutShort: bool, len: nat, val: u64)
      returns (len': nat, val': u64)
      requires Valid() && Waits(h, len, val) && d <= 9 && h * 10 + 9 < Pow(B, CHUNKS)
      modifies this, bits
      ensures Valid() && (old(Normal()) ==> Normal())
      ensures old(used) <= used && touched <= Larger(old(touched), used)
      ensures !last ==> Waits(h * 10 + d, len', val')
      ensures last ==> Value() == (if cutShort then h * 10 + 1 else h * 10 + d)
    {
      hide Pow, Val;
      DigitRoom(Value(), len, val);
      var w := val * 10 + d;
      len' := len + 1;
      if last && cutShort {
        assert w % 10 == d;
        w := w - w % 10 + 1;
      }
      val' := w;
      if len' == 19 || last {
        Flush(len', val');
        PowOne(10);
        len', val' := 0, 0;
      }
    }

    /** The state of `bigint_set_buf`'s loop when it has come to `cur`. */
    ghost predicate Reading(lead: nat, text: seq<byte>, cut: nat, end: nat, dot: int, cutShort: bool,
                            cur: nat, len: nat, val: nat)
      requires Valid() && CutText(text, cut, end, dot) && cut <= cur <= end
      reads this, bits
    {
      && (cur < end ==> Waits(Horner(lead, DigitsOf(text, cut, cur, dot)), len, val))
      && (cur == end ==> Value() == ReadText(lead, text, cut, end, dot, cutShort))
    }

    method ReadOne(ghost lead: nat, text: seq<byte>, cut: nat, end: nat, dot: int, cutShort: bool,
                   cur: nat, len: nat, val: u64) returns (len': nat, val': u64)
      requires Valid() && Normal() && CutText(text, cut, end, dot) && cut <= cur < end
      requires lead < Pow(10, 19) && |DigitsOf(text, cut, end, dot)| <= 751
      requires Reading(lead, text, cut, end, dot, cutShort, cur, len, val)
      modifies this, bits
      ensures Valid() && Normal() && Reading(lead, text, cut, end, dot, cutShort, cur + 1, len', val')
      ensures old(used) <= used && touched <= Larger(old(touched), used)
    {
      hide Pow, Val, Horner, DigitsOf, Waits;
      len', val' := len, val;
      if cur != dot {
        DigitRead(lead, text, cut, end, cur, dot);
        ghost var h := Horner(lead, DigitsOf(text, cut, cur, dot));
        len', val' := TakeDigit(h, text[cur] - 48, cur + 1 == end, cutShort, len, val);
      } else {
        DotSkipped(text, cut, end, cur, dot);
      }
    }

    /** The loop of `bigint_set_buf`: up to 19 digits at a time. */
    method ReadDigits(ghost lead: nat, text: seq<byte>, cut: nat, end: nat, dot: int, cutShort: bool)
      requires Valid() && Normal() && Value() == lead < Pow(10, 19)
      requires CutText(text, cut, end, dot) && |DigitsOf(text, cut, end, dot)| <= 751
      modifies this, bits
      ensures Valid() && Normal() && Value() == ReadText(lead, text, cut, end, dot, cutShort)
      ensures old(used) <= used && touched <= Larger(old(touched), used)
    {
      PowOne(10);
      assert Horner(lead, DigitsOf(text, cut, cut, dot)) == lead && Waits(lead, 0, 0);
      var cur, len := cut, 0;
      var val: u64 := 0;
      hide Pow, Val, Horner, DigitsOf, Waits, ReadText;
      while cur < end
        invariant cut <= cur <= end && Valid() && Normal()
        invariant old(used) <= used && touched <= Larger(old(touched), used)
        invariant Reading(lead, text, cut, end, dot, cutShort, cur, len, val)
      {
        len, val := ReadOne(lead, text, cut, end, dot, cutShort, cur, len, val);
        cur := cur + 1;
      }
    }

    /** `bigint_cmp` */
    method Cmp(other: BigInt) returns (sign: int)
      requires Valid() && other.Valid() && Normal() && other.Normal() && Value() > 0 && other.Value() > 0
      ensures sign == (if Value() < other.Value() then -1 else if Value() > other.Value() then 1 else 0)
    {
      ghost var a, b := bits[..used], other.bits[..other.used];
      if used < other.used {
        Longer(a, b);
        return -1;
      }
      if used > other.used {
        Longer(b, a);
        return 1;
      }
      var idx := used;
      while idx > 0
        invariant 0 <= idx <= used && a[idx..] == b[idx..]
      {
        idx := idx - 1;
        var av, bv := bits[idx], other.bits[idx];
        if av < bv {
          ValOrder(a, b, idx);
          return -1;
        }
        if av > bv {
          ValOrder(b, a, idx);
          return 1;
        }
      }
      assert a == a[0..] && b == b[0..];
      return 0;
    }
  }

  /** Two numbers with the same chunks from `k` on differ by the difference below `k`. */
  lemma Rest(s: seq<u64>, t: seq<u64>, k: nat, d: int)
    requires |s| == |t| && k <= |s| && s[k..] == t[k..] && Val(t[..k]) == Val(s[..k]) + d
    ensures Val(t) == Val(s) + d
  {
    assert s == s[..k] + s[k..] && t == t[..k] + t[k..];
    ValConcat(s[..k], s[k..]);
    ValConcat(t[..k], t[k..]);
  }

  /** A carry goes into a chunk, or over it if that is full. */
  lemma CarryNext(low: seq<u64>, s: seq<u64>, x: u64)
    requires |low| == |s| && Val(low) + Pow(B, |s|) == Val(s) + B
    ensures x != B - 1 ==> Val(low + [x + 1]) == Val(s + [x]) + B
    ensures x == B - 1 ==> Val(low + [0]) + Pow(B, |s| + 1) == Val(s + [x]) + B
  {
    hide Pow, Val;
    CarryAbsorbed(x, Pow(B, |s|));
    PowStep(B, |s|);
    ValSnoc(s, x);
    ValSnoc(low, 0);
    if x != B - 1 { ValSnoc(low, x + 1); }
  }

  lemma CarryAbsorbed(x: nat, p: nat)
    ensures (x + 1) * p == x * p + p
  {
  }

  /** The carry of a chunk product fits in a chunk. */
  lemma MulCarry(x: u64, val: u64, c: u64)
    ensures (x * val + c) / B < B && (x * val + c) % B < B
    ensures x * val + c == (x * val + c) % B + (x * val + c) / B * B
    ensures val != 0 && x != 0 && (x * val + c) / B == 0 ==> (x * val + c) % B != 0
  {
    MulLe(x, B - 1, val, B - 1);
    if x != 0 { MulGe(x, val); }
  }

  /** `u128_mul_add`: the low and the high half of a product and a carry. */
  method Product(x: u64, val: u64, c: u64) returns (lo: u64, hi: u64)
    ensures lo + hi * B == x * val + c && (hi == 0 && x != 0 && val != 0 ==> lo != 0)
  {
    MulCarry(x, val, c);
    var m := x * val + c;
    lo, hi := m % B, m / B;
  }

  lemma MulledUp(low: seq<u64>, s: seq<u64>, x: u64, val: u64, carry: u64, lo: u64, hi: u64)
    requires |low| == |s| && lo + hi * B == x * val + carry
    requires Val(low) + carry * Pow(B, |s|) == Val(s) * val
    ensures Val(low + [lo]) + hi * Pow(B, |s| + 1) == Val(s + [x]) * val
  {
    hide Pow, Val;
    ValSnoc(s, x);
    ValSnoc(low, lo);
    PowStep(B, |s|);
    MulStep(Val(low), Val(s), x, val, carry, Pow(B, |s|), lo, hi);
  }

  lemma MulStep(v: nat, w: nat, x: nat, val: nat, c: nat, p: nat, lo: nat, hi: nat)
    requires v + c * p == w * val && lo + hi * B == x * val + c
    ensures v + lo * p + hi * (B * p) == (w + x * p) * val
  {
    calc {
      v + lo * p + hi * (B * p);
      { MulAssoc(hi, B, p); }
      v + lo * p + hi * B * p;
      v + (lo + hi * B) * p;
      v + (x * val + c) * p;
      w * val + x * val * p;
      { Swap(x, val, p); }
      (w + x * p) * val;
    }
  }

  lemma Swap(x: int, y: int, z: int)
    ensures x * y * z == x * z * y
  {
  }

  /** A number with a non-zero top chunk is at least that chunk's weight. */
  lemma TopWeight(s: seq<u64>)
    requires s != [] && s[|s| - 1] != 0
    ensures Pow(B, |s| - 1) <= Val(s)
  {
    MulGe(s[|s| - 1], Pow(B, |s| - 1));
  }

  lemma Longer(a: seq<u64>, b: seq<u64>)
    requires 1 <= |a| < |b| && b[|b| - 1] != 0
    ensures Val(a) < Val(b)
  {
    ValBound(a);
    TopWeight(b);
    PowMono(B, |a|, |b| - 1);
  }
}
