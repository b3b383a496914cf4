/**
  The comparison at the end of the number reader's slow path: is the literal above, on or
  below the half-way point above the candidate double?  The integers compared are scaled,
  possibly truncated versions of the two; this module says when their order is the exact one.
 */
module BigCompare {
  import opened Powers
  import opened DecimalText
  import opened BigInts

  function Sign(x: int): int { if x < 0 then -1 else if x > 0 then 1 else 0 }

  /** The order of `n * 10^x` and `u * 2^e`, both multiplied by `10^a * 2^b` so that they
      are whole numbers. */
  function OrderAt(n: nat, x: int, u: nat, e: int, a: nat, b: nat): int
    requires x + a >= 0 && e + b >= 0
  {
    Sign(n * Pow(10, x + a) * Pow(2, b) - u * Pow(10, a) * Pow(2, e + b))
  }

  function Clear(x: int): nat { if x < 0 then -x else 0 }

  /** The exact order of `n * 10^x` and `u * 2^e`. */
  function Order(n: nat, x: int, u: nat, e: int): int {
    OrderAt(n, x, u, e, Clear(x), Clear(e))
  }

  lemma SignScale(x: int, y: int, s: nat)
    requires s > 0
    ensures Sign(x * s - y * s) == Sign(x - y)
  {
    if x < y { MulLt(0, y - x, s); } else if x > y { MulLt(0, x - y, s); }
  }

  /** The order does not depend on how much is cleared. */
  lemma OrderScale(n: nat, x: int, u: nat, e: int, a: nat, b: nat)
    requires x + a >= 0 && e + b >= 0
    ensures OrderAt(n, x, u, e, a, b) == Order(n, x, u, e)
  {
    var a0, b0 := Clear(x), Clear(e);
    hide Pow;
    PowAdd(10, x + a0, a - a0);
    PowAdd(10, a0, a - a0);
    PowAdd(2, b0, b - b0);
    PowAdd(2, e + b0, b - b0);
    PowPositive(10, a - a0);
    PowPositive(2, b - b0);
    var s, r := Pow(10, a - a0), Pow(2, b - b0);
    Regroup(n, Pow(10, x + a0), Pow(2, b0), s, r);
    Regroup(u, Pow(10, a0), Pow(2, e + b0), s, r);
    MulLt(0, s, r);
    SignScale(n * Pow(10, x + a0) * Pow(2, b0), u * Pow(10, a0) * Pow(2, e + b0), s * r);
  }

  lemma Regroup(n: int, p: int, q: int, s: int, r: int)
    ensures n * (p * s) * (q * r) == n * p * q * (s * r)
  {
    MulAssoc(n, p, s);
    Shuffle(n * p, s, q, r);
  }

  lemma Shuffle(a: int, s: int, q: int, r: int)
    ensures a * s * (q * r) == a * q * (s * r)
  {
    MulAssoc(a, s, q * r);
    MulAssoc(a, q, s * r);
    assert s * (q * r) == q * (s * r) by { MulAssoc(s, q, r); MulAssoc(q, s, r); }
  }

  // ---------------------------------------------------------------- truncation

  /** A half-way point `m` units away, seen from a number `n` between `t` and `t + 1` units
      and from `t` and a tenth: the order is the same, unless `n` is exactly there. */
  lemma TenthStandsForRest(n: nat, t: nat, p: nat, q: nat, m: nat)
    requires p > 0 && q > 0 && t * (10 * p) <= n < (t + 1) * (10 * p)
    ensures Sign((10 * t + 1) * p * q - m * (10 * p) * q) ==
            if Sign(n * q - m * (10 * p) * q) == 0 then 1 else Sign(n * q - m * (10 * p) * q)
  {
    var unit := 10 * p;
    SignScale((10 * t + 1) * p, m * unit, q);
    SignScale(n, m * unit, q);
    assert m * unit == 10 * m * p;
    SignScale(10 * t + 1, 10 * m, p);
    if m <= t { MulLe(m, t, unit, unit); } else { MulLe(t + 1, m, unit, unit); }
  }

  lemma FiveToTwo()
    ensures Pow(5, 31) < Pow(2, 72) && Pow(5, 28) < Pow(2, 66)
  {
    hide Pow;
    TwoTo64();
    PowAdd(2, 64, 8);
    PowAdd(2, 64, 2);
    SmallPowers();
    PowMul(5, 7, 4);
    FourthPower(78125);
    PowAdd(5, 28, 3);
  }

  lemma SmallPowers()
    ensures Pow(2, 2) == 4 && Pow(2, 8) == 256 && Pow(5, 3) == 125 && Pow(5, 7) == 78125
  {
    assert Pow(5, 2) == 25 && Pow(5, 4) == 625 && Pow(5, 6) == 15625;
    assert Pow(2, 4) == 16 && Pow(2, 6) == 64;
  }

  lemma FourthPower(b: nat)
    ensures Pow(b, 4) == b * b * (b * b)
  {
    assert Pow(b, 2) == b * b by { PowOne(b); }
    PowAdd(b, 2, 2);
  }

  /** Five to the 307th is below two to the 714th. */
  lemma FiveTo307()
    ensures Pow(5, 307) < Pow(2, 714)
  {
    hide Pow;
    FiveToTwo();
    PowAdd(5, 279, 28);
    PowMul(5, 31, 9);
    PowMul(2, 72, 9);
    PowAdd(2, 648, 66);
    PowBaseMono(Pow(5, 31), Pow(2, 72), 9);
    PowPositive(2, 648);
    MulLe(Pow(5, 279), Pow(2, 648), Pow(5, 28), Pow(5, 28));
    MulLt(Pow(5, 28), Pow(2, 66), Pow(2, 648));
  }

  lemma {:induction false} PowProduct(a: nat, b: nat, n: nat)
    ensures Pow(a * b, n) == Pow(a, n) * Pow(b, n)
  {
    if n > 0 {
      PowProduct(a, b, n - 1);
      hide Pow;
      PowStep(a, n - 1);
      PowStep(b, n - 1);
      PowStep(a * b, n - 1);
      Shuffle(1, a, b, 1);
      CrossMul(a, b, Pow(a, n - 1), Pow(b, n - 1));
    }
  }

  lemma CrossMul(a: int, b: int, x: int, y: int)
    ensures a * b * (x * y) == a * x * (b * y)
  {
    MulAssoc(a, b, x * y);
    MulAssoc(a, x, b * y);
    assert b * (x * y) == x * (b * y) by { MulAssoc(b, x, y); MulAssoc(x, b, y); }
  }

  /** No half-way point has more than 768 significant digits. */
  lemma HalfWayDigits(u: nat, b: nat)
    requires u < Pow(2, 54) && b <= 1075
    ensures u * Pow(5, b) < Pow(10, 768)
  {
    hide Pow;
    PowMono(5, b, 1075);
    PowAdd(5, 768, 307);
    FiveTo307();
    PowAdd(2, 54, 714);
    PowProduct(2, 5, 768);
    PowPositive(5, 768);
    PowPositive(5, b);
    PowPositive(2, 54);
    var f, g := Pow(5, 768), Pow(5, 307);
    MulLe(u, Pow(2, 54) - 1, Pow(5, b), f * g);
    assert (Pow(2, 54) - 1) * (f * g) <= Pow(2, 54) * (f * g) by { MulLe(Pow(2, 54) - 1, Pow(2, 54), f * g, f * g); }
    assert Pow(2, 54) * (f * g) == Pow(2, 54) * g * f by { MulAssoc(Pow(2, 54), g, f); assert f * g == g * f; }
    MulLt(g, Pow(2, 714), Pow(2, 54));
    assert Pow(2, 54) * g < Pow(2, 768);
    MulLt(Pow(2, 54) * g, Pow(2, 768), f);
  }

  /** The half-way point counted in units of the last kept digit, times the cleared powers. */
  lemma HalfWayUnits(u: nat, e: int, c: nat, j: nat) returns (m: nat)
    requires e < 0 ==> c >= -e
    ensures u * Pow(10, c + j) * Pow(2, e + Clear(e)) == m * Pow(10, j) * Pow(2, Clear(e))
  {
    hide Pow;
    PowAdd(10, c, j);
    PowOne(2);
    var cj := Pow(10, c) * Pow(10, j);
    if e >= 0 {
      m := u * Pow(10, c) * Pow(2, e);
      UnitsUp(u, Pow(10, c), Pow(10, j), Pow(2, e));
    } else {
      var b := -e;
      m := u * Pow(5, b) * Pow(10, c - b);
      PowAdd(10, b, c - b);
      PowProduct(2, 5, b);
      UnitsDown(u, Pow(2, b), Pow(5, b), Pow(10, c - b), Pow(10, j));
    }
  }

  lemma UnitsUp(u: int, x: int, y: int, z: int)
    ensures u * (x * y) * z == u * x * z * y
  {
    MulAssoc(u, x, y);
    Swap(u * x, y, z);
  }

  lemma UnitsDown(u: int, two: int, five: int, rest: int, y: int)
    ensures u * ((two * five) * rest * y) == u * five * rest * y * two
  {
    MulAssoc(u, two * five * rest, y);
    MulAssoc(u, two * five, rest);
    MulAssoc(u, two, five);
    Swap(u, two, five);
    Swap(u * five, two, rest);
    Swap(u * five * rest, two, y);
  }

  /** A half-way point with digits below the last kept one is smaller than the literal. */
  lemma FarHalfWay(t: nat, u: nat, b: nat, c: nat, j: nat)
    requires t >= Pow(10, 767) && u < Pow(2, 54) && b <= 1075 && c < b
    ensures u * Pow(10, c + j) < t * Pow(10, j) * Pow(2, b)
  {
    hide Pow;
    var five, a := Pow(5, b), c + j;
    PowPositive(5, b);
    PowPositive(10, a);
    HalfWayDigits(u, b);
    MulLt(u * five, Pow(10, 768), Pow(10, a));
    PowAdd(10, 768, a);
    PowMono(10, 768 + a, 767 + j + b);
    PowAdd(10, 767 + j, b);
    PowAdd(10, 767, j);
    PowProduct(2, 5, b);
    MulLe(Pow(10, 767), t, Pow(10, j), Pow(10, j));
    MulLe(Pow(10, 767) * Pow(10, j), t * Pow(10, j), Pow(2, b) * five, Pow(2, b) * five);
    MulAssoc(t * Pow(10, j), Pow(2, b), five);
    Swap(u, five, Pow(10, a));
    LtCancel(u * Pow(10, a), t * Pow(10, j) * Pow(2, b), five);
  }

  lemma LtCancel(x: nat, y: nat, s: nat)
    requires x * s < y * s
    ensures x < y
  {
    if y <= x { MulLe(y, x, s, s); }
  }

  /** Literal and truncated literal over the common unit of their last digits. */
  lemma ScaledOrders(n: nat, f: nat, c: nat, j: nat, u: nat, e: int)
    requires 1 <= j
    ensures var v := u * Pow(10, c + j) * Pow(2, e + Clear(e));
            && Order(n, -(c + j), u, e) == Sign(n * Pow(2, Clear(e)) - v)
            && Order(f, -(c + 1), u, e) == Sign(f * Pow(10, j - 1) * Pow(2, Clear(e)) - v)
  {
    hide Pow;
    OrderScale(n, -(c + j), u, e, c + j, Clear(e));
    OrderScale(f, -(c + 1), u, e, c + j, Clear(e));
    PowOne(10);
  }

  /** Keeping 768 digits and putting a 1 for the rest gives the exact order, unless the
      literal is exactly on the half-way point: then the 1 makes it look larger. */
  lemma TruncatedOrder(n: nat, t: nat, j: nat, exp: int, u: nat, e: int)
    requires 1 <= j && exp <= 308 && u < Pow(2, 54) && e >= -1075 && t >= Pow(10, 767)
    requires t * Pow(10, j) <= n < (t + 1) * Pow(10, j)
    ensures Order(10 * t + 1, exp - 750, u, e) ==
            if Order(n, exp - 749 - j, u, e) == 0 then 1 else Order(n, exp - 749 - j, u, e)
  {
    hide Pow, Order;
    var b, c := Clear(e), 749 - exp;
    ScaledOrders(n, 10 * t + 1, c, j, u, e);
    PowStep(10, j - 1);
    PowPositive(10, j - 1);
    PowPositive(2, b);
    if e >= 0 || c >= b {
      var m := HalfWayUnits(u, e, c, j);
      TenthStandsForRest(n, t, Pow(10, j - 1), Pow(2, b), m);
    } else {
      FarHalfWay(t, u, b, c, j);
      PowOne(2);
      BothAbove(n, t, Pow(10, j - 1), Pow(2, b), u * Pow(10, c + j) * Pow(2, e + b));
    }
  }

  lemma BothAbove(n: nat, t: nat, p: nat, q: nat, v: nat)
    requires t * (10 * p) <= n && v < t * (10 * p) * q
    ensures Sign(n * q - v) == 1 && Sign((10 * t + 1) * p * q - v) == 1
  {
    MulLe(t * (10 * p), n, q, q);
    assert t * (10 * p) == 10 * t * p;
    MulLe(10 * t * p, (10 * t + 1) * p, q, q);
  }

  // ---------------------------------------------------------------- literals

  /** What the number reader knows of a literal when it gets to the slow path: up to 19
      digits as a number, or the first 19 digits and where the others are.  `exp` is the
      decimal exponent of those first digits. */
  datatype Literal =
    | Short(sig: nat, exp: int)
    | Long(lead: nat, text: seq<byte>, cut: nat, end: nat, dot: int, exp: int)

  /** The limits of the number reader. */
  predicate Readable(l: Literal) {
    && -343 <= l.exp <= 308
    && (l.Short? ==> 1 <= l.sig < B)
    && (l.Long? ==> CutText(l.text, l.cut, l.end, l.dot) && Pow(10, 18) <= l.lead < Pow(10, 19))
  }

  /** The literal is `Digits(l) * 10^Scale(l)`. */
  function Digits(l: Literal): nat
    requires Readable(l)
  {
    if l.Short? then l.sig else Horner(l.lead, DigitsOf(l.text, l.cut, l.end, l.dot))
  }

  function Scale(l: Literal): int
    requires Readable(l)
  {
    if l.Short? then l.exp else l.exp - |DigitsOf(l.text, l.cut, l.end, l.dot)|
  }

  /** The number and the exponent that `bigint_set_buf` produces. */
  function ReadDigits(l: Literal): nat
    requires Readable(l)
  {
    if l.Short? then l.sig else BufValue(l.lead, l.text, l.cut, l.end, l.dot)
  }

  function ReadScale(l: Literal): int
    requires Readable(l)
  {
    if l.Short? then l.exp else l.exp - BufScale(l.cut, l.end, l.dot)
  }

  predicate TooManyDigits(l: Literal) { l.Long? && DigitCount(l.cut, l.end, l.dot) > 768 }

  /** The decimal point lies behind the digits that are kept: at least 770 digits stand
      before it. */
  predicate Misplaced(l: Literal) {
    TooManyDigits(l) && l.cut + 751 <= l.dot < l.end
  }

  /** How the kept digits relate to all digits: `k` of them count exactly. */
  lemma KeptDigits(l: Literal) returns (t: nat, j: nat)
    requires Readable(l) && TooManyDigits(l)
    ensures ReadDigits(l) == 10 * t + 1 && ReadScale(l) == l.exp - 750
    ensures 1 <= j && t * Pow(10, j) <= Digits(l) < (t + 1) * Pow(10, j) && t >= Pow(10, 767)
    ensures Scale(l) == l.exp - (if Misplaced(l) then 750 else 749) - j
  {
    hide Pow, Horner, DigitsOf;
    KeptEndFacts(l.text, l.cut, l.end, l.dot);
    var e := KeptEnd(l.cut, l.end, l.dot);
    var kept, all := DigitsOf(l.text, l.cut, e - 1, l.dot), DigitsOf(l.text, l.cut, l.end, l.dot);
    DigitsOfPrefix(l.text, l.cut, e - 1, l.end, l.dot);
    DigitsOfFacts(l.text, l.cut, l.end, l.dot);
    KeptCount(l);
    t := Horner(l.lead, kept);
    j := |all| - |kept|;
    PrefixRange(l.lead, kept, all);
  }

  lemma KeptCount(l: Literal)
    requires Readable(l) && TooManyDigits(l)
    ensures var e := KeptEnd(l.cut, l.end, l.dot);
            && l.cut < e <= l.end
            && |DigitsOf(l.text, l.cut, e - 1, l.dot)| == (if Misplaced(l) then 750 else 749)
            && |DigitsOf(l.text, l.cut, e - 1, l.dot)| < |DigitsOf(l.text, l.cut, l.end, l.dot)|
  {
    KeptEndFacts(l.text, l.cut, l.end, l.dot);
    DigitsOfFacts(l.text, l.cut, KeptEnd(l.cut, l.end, l.dot) - 1, l.dot);
    DigitsOfFacts(l.text, l.cut, l.end, l.dot);
    hide DigitsOf, Pow;
  }

  lemma PrefixRange(lead: nat, kept: seq<nat>, all: seq<nat>)
    requires kept <= all && AllDigits(all) && lead >= Pow(10, 18) && |kept| >= 749
    ensures var t, p := Horner(lead, kept), Pow(10, |all| - |kept|);
            t * p <= Horner(lead, all) < (t + 1) * p && t >= Pow(10, 767)
  {
    hide Pow, Horner;
    var rest := all[|kept|..];
    assert all == kept + rest;
    HornerConcat(lead, kept, rest);
    HornerRange(Horner(lead, kept), rest);
    HornerRange(lead, kept);
    PowAdd(10, 18, |kept|);
    PowMono(10, 767, 18 + |kept|);
    MulLe(Pow(10, 18), lead, Pow(10, |kept|), Pow(10, |kept|));
  }

  /** The exact condition: what was read has the literal's own order to the half-way point
      exactly when it has at most 768 digits or is not exactly on that point. */
  lemma ReadOrder(l: Literal, u: nat, e: int)
    requires Readable(l) && !Misplaced(l) && u < Pow(2, 54) && e >= -1075
    ensures var exact := Order(Digits(l), Scale(l), u, e);
            var read := Order(ReadDigits(l), ReadScale(l), u, e);
            && (read == exact <==> !(TooManyDigits(l) && exact == 0))
            && (TooManyDigits(l) && exact == 0 ==> read == 1)
  {
    hide Pow, Order, BufValue, Horner;
    if TooManyDigits(l) {
      var t, j := KeptDigits(l);
      TruncatedOrder(Digits(l), t, j, l.exp, u, e);
    } else if l.Long? {
      ReadAll(l);
    }
  }

  lemma ReadAll(l: Literal)
    requires Readable(l) && l.Long? && !TooManyDigits(l)
    ensures ReadDigits(l) == Digits(l) && ReadScale(l) == Scale(l)
  {
    DigitsOfFacts(l.text, l.cut, l.end, l.dot);
  }

  /** With the decimal point behind the kept digits the number read is ten times too large:
      next to a literal in the half-way point's neighbourhood it always looks larger, so the
      order is right only when the literal is above the half-way point. */
  lemma MisplacedOrder(l: Literal, u: nat, e: int)
    requires Readable(l) && Misplaced(l) && u >= 3 && Order(Digits(l), Scale(l), u - 2, e) >= 0
    ensures Order(ReadDigits(l), ReadScale(l), u, e) == 1
  {
    hide Pow, Order, BufValue, Horner;
    var t, j := KeptDigits(l);
    var c := 750 - l.exp;
    ScaledOrders(Digits(l), 0, c, j, u - 2, e);
    OrderScale(10 * t + 1, l.exp - 750, u, e, c + j, Clear(e));
    PowPositive(10, j);
    PowPositive(2, Clear(e));
    PowPositive(10, 767);
    TenTimes(Digits(l), t, Pow(10, j), Pow(2, Clear(e)), u, Pow(10, c + j), Pow(2, e + Clear(e)));
  }

  lemma TenTimes(n: nat, t: nat, p: nat, q: nat, u: nat, x: nat, y: nat)
    requires n < (t + 1) * p && p > 0 && q > 0 && t >= 1 && u >= 3
    requires Sign(n * q - (u - 2) * x * y) >= 0
    ensures Sign((10 * t + 1) * p * q - u * x * y) == 1
  {
    MulLt(n, (t + 1) * p, q);
    MulAssoc(u, x, y);
    MulAssoc(u - 2, x, y);
    MulAssoc(t + 1, p, q);
    MulAssoc(10 * t + 1, p, q);
    ThreeTimes(u, x * y, t, p * q);
  }

  lemma ThreeTimes(u: nat, z: nat, t: nat, r: nat)
    requires u >= 3 && t >= 1 && (u - 2) * z < (t + 1) * r
    ensures u * z < (10 * t + 1) * r
  {
    MulLe(u, 3 * (u - 2), z, z);
    assert 3 * (u - 2) * z == 3 * ((u - 2) * z);
    MulLe(3 * (t + 1), 10 * t + 1, r, r);
    assert 3 * (t + 1) * r == 3 * ((t + 1) * r);
  }
}
