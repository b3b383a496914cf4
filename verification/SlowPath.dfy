/**
  The last step of reading a floating-point number (`read_num` in `include/yyjson.c`): the
  candidate double is the right one or the one just below it, and a comparison of big
  integers with the half-way point above the candidate decides.
 */
module SlowPath {
  import opened Powers
  import opened DecimalText
  import opened BigInts
  import opened BigCompare

  // ---------------------------------------------------------------- doubles

  const INF: nat := 0x7FF0_0000_0000_0000
  const HIDDEN: nat := 0x10_0000_0000_0000

  /** A finite double with bit pattern `raw` is `Sig(raw) * 2^Exp(raw)`. */
  function Sig(raw: nat): nat {
    if raw / HIDDEN > 0 then raw % HIDDEN + HIDDEN else raw
  }

  function Exp(raw: nat): int {
    (if raw / HIDDEN > 0 then raw / HIDDEN else 1) - 1075
  }

  /** The half-way point above: the upper boundary computed by `read_num`. */
  function UpperSig(raw: nat): nat { 2 * Sig(raw) + 1 }

  function UpperExp(raw: nat): int { Exp(raw) - 1 }

  /** The next double is one unit of the last place further, also where the exponent
      changes; so the half-way point is in the middle. */
  lemma NextDouble(raw: nat)
    requires raw < INF
    ensures (Exp(raw + 1) == Exp(raw) && Sig(raw + 1) == Sig(raw) + 1)
            || (Exp(raw + 1) == Exp(raw) + 1 && 2 * Sig(raw + 1) == Sig(raw) + 1)
    ensures 1 <= UpperSig(raw) < Pow(2, 54) && -1075 <= UpperExp(raw) <= 970
  {
    Pow54();
    if raw % HIDDEN == HIDDEN - 1 {
      assert (raw + 1) / HIDDEN == raw / HIDDEN + 1 && (raw + 1) % HIDDEN == 0;
    } else {
      assert (raw + 1) / HIDDEN == raw / HIDDEN && (raw + 1) % HIDDEN == raw % HIDDEN + 1;
    }
  }

  lemma Pow54()
    ensures Pow(2, 54) == 0x40_0000_0000_0000
  {
    hide Pow;
    SmallPowers();
    PowMul(2, 8, 6);
    PowAdd(2, 48, 6);
    assert Pow(256, 6) == 0x1_0000_0000_0000 by {
      FourthPower(256);
      PowAdd(256, 4, 2);
      PowStep(256, 1);
      PowOne(256);
    }
    PowAdd(2, 4, 2);
    PowAdd(2, 2, 2);
  }

  // ---------------------------------------------------------------- sizes

  lemma BitSizes()
    ensures Pow(10, 771) <= Pow(2, 2570) && Pow(10, 328) <= Pow(2, 1100) && Pow(10, 1093) <= Pow(2, 3650)
    ensures Pow(B, 58) == Pow(2, 3712) && Pow(B, 57) == Pow(2, 3648) && Pow(B, 58) <= Pow(B, CHUNKS)
  {
    hide Pow;
    TenToTwo(257);
    TenToTwo(110);
    TenToTwo(365);
    PowMono(10, 328, 330);
    PowMono(10, 1093, 1095);
    TwoTo64();
    PowMul(2, 64, 57);
    PowMul(2, 64, 58);
    PowMono(B, 58, CHUNKS);
  }

  lemma HornerSize(lead: nat, ds: seq<nat>)
    requires 1 <= lead < Pow(10, 19) && AllDigits(ds)
    ensures 1 <= Horner(lead, ds) < Pow(10, 19 + |ds|)
  {
    hide Pow, Horner;
    HornerRange(lead, ds);
    PowAdd(10, 19, |ds|);
    PowPositive(10, |ds|);
    MulLe(lead + 1, Pow(10, 19), Pow(10, |ds|), Pow(10, |ds|));
    MulGe(lead, Pow(10, |ds|));
  }

  /** The number that is read stays small, and so does its product with a power of ten. */
  lemma ReadSize(l: Literal)
    requires Readable(l)
    ensures 1 <= ReadDigits(l) <= Pow(10, 771) && -1093 <= ReadScale(l) <= 308
    ensures ReadScale(l) >= 0 ==> ReadDigits(l) * Pow(10, ReadScale(l)) <= Pow(10, 328)
  {
    hide Pow, Horner, DigitsOf;
    if l.Short? {
      Pow10Table(19);
      PowStep(10, 19);
      SizeFrom(l.sig, 20, l.exp);
    } else if TooManyDigits(l) {
      TruncatedSize(l);
    } else {
      ReadAll(l);
      PowPositive(10, 18);
      DigitsOfFacts(l.text, l.cut, l.end, l.dot);
      var ds := DigitsOf(l.text, l.cut, l.end, l.dot);
      HornerSize(l.lead, ds);
      SizeFrom(Horner(l.lead, ds), 19 + |ds|, l.exp - |ds|);
    }
  }

  /** A number of `k` digits with an exponent that leaves it at most 328 of them. */
  lemma SizeFrom(f: nat, k: nat, e: int)
    requires f <= Pow(10, k) && k <= 771 && k + e <= 328
    ensures f <= Pow(10, 771) && (e >= 0 ==> f * Pow(10, e) <= Pow(10, 328))
  {
    hide Pow;
    PowMono(10, k, 771);
    if e >= 0 {
      PowAdd(10, k, e);
      PowMono(10, k + e, 328);
      MulLe(f, Pow(10, k), Pow(10, e), Pow(10, e));
    }
  }

  lemma TruncatedSize(l: Literal)
    requires Readable(l) && TooManyDigits(l)
    ensures 1 <= ReadDigits(l) <= Pow(10, 771) && -1093 <= ReadScale(l) < 0
  {
    hide Pow, Horner, DigitsOf;
    KeptCount(l);
    PowPositive(10, 18);
    var e := KeptEnd(l.cut, l.end, l.dot);
    DigitsOfFacts(l.text, l.cut, e - 1, l.dot);
    var kept := DigitsOf(l.text, l.cut, e - 1, l.dot);
    HornerSize(l.lead, kept);
    PowMono(10, 19 + |kept|, 769);
    PowStep(10, 769);
    PowStep(10, 770);
  }

  lemma UsedAtMost(s: seq<u64>, n: nat)
    requires s != [] && (|s| == 1 || s[|s| - 1] != 0) && Val(s) < Pow(B, n) && 1 <= n
    ensures |s| <= n
  {
    if |s| > 1 {
      TopWeight(s);
      PowInverse(B, |s| - 1, n);
    }
  }

  /** Products of a number below `2^m` with a power of two or ten. */
  lemma ProductSize(x: nat, m: nat, y: nat, n: nat)
    requires x <= Pow(2, m) && y <= Pow(2, n) && m + n < 3712
    ensures x * y < Pow(B, 58) && (m + n < 3648 ==> x * y < Pow(B, 57))
  {
    hide Pow;
    BitSizes();
    MulLe(x, Pow(2, m), y, Pow(2, n));
    PowAdd(2, m, n);
    PowStep(2, m + n);
    PowPositive(2, m + n);
    PowMono(2, m + n + 1, 3712);
    if m + n < 3648 { PowMono(2, m + n + 1, 3648); }
  }

  /** The candidate's half-way point is not far above the literal. */
  predicate NearBelow(l: Literal, u: nat, e: int)
    requires Readable(l)
  {
    e > 0 ==> u >= 3 && Order(Digits(l), Scale(l), u - 2, e) >= 0
  }

  /** The literal is not above the number read, its last digit raised to ten. */
  lemma ReadAbove(l: Literal, v: nat, e: int)
    requires Readable(l) && Order(Digits(l), Scale(l), v, e) >= 0
    ensures Order(ReadDigits(l) + 9, ReadScale(l), v, e) >= 0
  {
    hide Pow, Order, BufValue, Horner;
    var b := Clear(e);
    if TooManyDigits(l) {
      var t, j := KeptDigits(l);
      var a, k := -Scale(l), ReadScale(l) - Scale(l);
      OrderScale(Digits(l), Scale(l), v, e, a, b);
      OrderScale(ReadDigits(l) + 9, ReadScale(l), v, e, a, b);
      PowOne(10);
      PowStep(10, j - 1);
      PowMono(10, j - 1, k);
      TenUnits(Digits(l), t, Pow(10, j - 1), Pow(10, k), Pow(2, b));
    } else {
      if l.Long? { ReadAll(l); }
      MoreDigits(Digits(l), Digits(l) + 9, Scale(l), v, e);
    }
  }

  lemma TenUnits(n: nat, t: nat, p: nat, p': nat, q: nat)
    requires n < (t + 1) * (10 * p) && p <= p'
    ensures n * q <= (10 * t + 10) * p' * q
  {
    assert (t + 1) * (10 * p) == (10 * t + 10) * p;
    MulLe(10 * t + 10, 10 * t + 10, p, p');
    MulLe(n, (10 * t + 10) * p', q, q);
  }

  lemma MoreDigits(n: nat, m: nat, x: int, v: nat, e: int)
    requires n <= m
    ensures Order(n, x, v, e) <= Order(m, x, v, e)
  {
    hide Pow;
    MulLe(n, m, Pow(10, x + Clear(x)), Pow(10, x + Clear(x)));
    MulLe(n * Pow(10, x + Clear(x)), m * Pow(10, x + Clear(x)), Pow(2, Clear(e)), Pow(2, Clear(e)));
  }

  lemma LowerHalfWay(n: nat, x: int, u: nat, v: nat, e: int)
    requires v <= u
    ensures Order(n, x, u, e) <= Order(n, x, v, e)
  {
    hide Pow;
    MulLe(v, u, Pow(10, Clear(x)), Pow(10, Clear(x)));
    MulLe(v * Pow(10, Clear(x)), u * Pow(10, Clear(x)), Pow(2, e + Clear(e)), Pow(2, e + Clear(e)));
  }

  /** The one product whose size needs the candidate to be near. */
  lemma NearSize(l: Literal, u: nat, e: int)
    requires Readable(l) && NearBelow(l, u, e) && ReadScale(l) < 0 && e > 0
    ensures u * Pow(10, -ReadScale(l)) * Pow(2, e) < Pow(B, 57)
  {
    hide Pow, ReadDigits, ReadScale, Digits, Scale;
    ReadAbove(l, u - 2, e);
    ReadSize(l);
    var f, a := ReadDigits(l) + 9, -ReadScale(l);
    PowOne(10);
    PowOne(2);
    assert (u - 2) * Pow(10, a) * Pow(2, e) <= f;
    hide Order;
    BitSizes();
    Threefold(u, Pow(10, a), Pow(2, e), f);
    SmallPowers();
    PowMono(2, 8, 2570);
    PowAdd(2, 2570, 2);
    ProductSize(3 * f, 2572, 1, 0);
  }

  lemma Threefold(u: nat, x: nat, y: nat, f: nat)
    requires u >= 3 && (u - 2) * x * y <= f
    ensures u * x * y <= 3 * f
  {
    MulAssoc(u, x, y);
    MulAssoc(u - 2, x, y);
    MulLe(u, 3 * (u - 2), x * y, x * y);
    assert 3 * (u - 2) * (x * y) == 3 * ((u - 2) * (x * y));
  }

  /** Room for a shift that keeps the number below 57 chunks, with one chunk more to write. */
  lemma ShiftRoom(s: seq<u64>, e: nat)
    requires s != [] && (|s| == 1 || s[|s| - 1] != 0) && Val(s) > 0 && Val(s) * Pow(2, e) < Pow(B, 57)
    ensures |s| + e / 64 <= 57
  {
    hide Pow, Val;
    NormalTop(s);
    TopWeight(s);
    WeightRoom(Val(s), |s| - 1, e);
  }

  lemma WeightRoom(v: nat, n: nat, e: nat)
    requires Pow(B, n) <= v && v * Pow(2, e) < Pow(B, 57)
    ensures n + e / 64 < 57
  {
    hide Pow;
    TwoTo64();
    PowMul(2, 64, e / 64);
    PowMono(2, 64 * (e / 64), e);
    PowAdd(B, n, e / 64);
    MulLe(Pow(B, n), v, Pow(B, e / 64), Pow(2, e));
    PowInverse(B, n + e / 64, 57);
  }

  // ---------------------------------------------------------------- the comparison

  /** The comparison as it is written: each factor goes to the side where it is whole. */
  lemma OrderIs(f: nat, x: int, u: nat, e: int)
    ensures Order(f, x, u, e) ==
            Sign((if x >= 0 then f * Pow(10, x) else f) * (if e > 0 then 1 else Pow(2, -e))
                 - (if x >= 0 then u else u * Pow(10, -x)) * (if e > 0 then Pow(2, e) else 1))
  {
    hide Pow;
    PowOne(10);
    PowOne(2);
  }

  /** The big integers of `read_num`'s slow path.  `touched` is one more than the highest index
      at which a chunk of either was ever written: 58 chunks are enough. */
  method CompareHalfWay(l: Literal, u: u64, e: int) returns (sign: int, ghost touched: nat)
    requires Readable(l) && 1 <= u < Pow(2, 54) && -1075 <= e <= 970 && NearBelow(l, u, e)
    ensures sign == Order(ReadDigits(l), ReadScale(l), u, e)
    ensures touched <= 58
  {
    hide Pow, Order, Val;
    var full := new BigInt();
    var comp := new BigInt();
    var exp := SetLiteral(full, l);
    comp.SetU64(u);
    ScaleTen(full, comp, l, u, exp);
    ScaleTwo(full, comp, l, u, e, exp);
    touched := Larger(full.touched, comp.touched);
    OrderIs(ReadDigits(l), exp, u, e);
    sign := full.Cmp(comp);
  }

  /** `bigint_set_buf` */
  method SetLiteral(full: BigInt, l: Literal) returns (exp: int)
    requires full.Valid() && Readable(l)
    modifies full, full.bits
    ensures full.Valid() && full.Normal() && full.Value() == ReadDigits(l) > 0 && exp == ReadScale(l)
    ensures full.touched <= Larger(old(full.touched), full.used)
  {
    hide Pow, Val;
    ReadSize(l);
    exp := l.exp;
    if l.Short? {
      full.SetU64(l.sig);
    } else {
      Pow10Table(19);
      PowPositive(10, 18);
      var dropped := full.SetDigits(l.lead, l.text, l.cut, l.end, l.dot);
      exp := exp - dropped;
    }
  }

  /** The multiplication by a power of ten, on the side where it is a whole number. */
  method ScaleTen(full: BigInt, comp: BigInt, ghost l: Literal, ghost u: nat, exp: int)
    requires full.Valid() && comp.Valid() && full != comp && full.bits != comp.bits
    requires full.Normal() && comp.Normal() && Readable(l) && exp == ReadScale(l)
    requires full.Value() == ReadDigits(l) && comp.Value() == u && 1 <= u < Pow(2, 54)
    requires full.touched == full.used && comp.touched == comp.used
    modifies full, full.bits, comp, comp.bits
    ensures full.Valid() && comp.Valid() && full.Normal() && comp.Normal()
    ensures full.Value() == if exp >= 0 then ReadDigits(l) * Pow(10, exp) else ReadDigits(l)
    ensures comp.Value() == if exp >= 0 then u else u * Pow(10, -exp)
    ensures full.Value() > 0 && comp.Value() > 0 && full.touched <= 58 && comp.touched <= 58
  {
    hide Pow, Val;
    TenSizes(l, u);
    if exp >= 0 { full.MulPow10(exp); } else { comp.MulPow10(-exp); }
    UsedAtMost(full.bits[..full.used], 58);
    UsedAtMost(comp.bits[..comp.used], 58);
  }

  lemma TenSizes(l: Literal, u: nat)
    requires Readable(l) && 1 <= u < Pow(2, 54)
    ensures var f, x := ReadDigits(l), ReadScale(l);
            && 0 < f < Pow(B, 58) && u < Pow(B, 58) && Pow(B, 58) <= Pow(B, CHUNKS)
            && (x >= 0 ==> 0 < f * Pow(10, x) < Pow(B, 58))
            && (x < 0 ==> 0 < u * Pow(10, -x) < Pow(B, 58))
  {
    hide Pow;
    ReadSize(l);
    BitSizes();
    PowOne(2);
    var f, x := ReadDigits(l), ReadScale(l);
    ProductSize(f, 2570, 1, 0);
    ProductSize(u, 54, 1, 0);
    if x >= 0 {
      ProductSize(f * Pow(10, x), 1100, 1, 0);
      PowPositive(10, x);
      MulGe(f, Pow(10, x));
    } else {
      PowMono(10, -x, 1093);
      ProductSize(u, 54, Pow(10, -x), 3650);
      PowPositive(10, -x);
      MulGe(u, Pow(10, -x));
    }
  }

  /** The multiplication by a power of two, on the side where it is a whole number. */
  method ScaleTwo(full: BigInt, comp: BigInt, ghost l: Literal, ghost u: nat, e: int, ghost exp: int)
    requires full.Valid() && comp.Valid() && full != comp && full.bits != comp.bits
    requires full.Normal() && comp.Normal() && Readable(l) && exp == ReadScale(l)
    requires full.Value() == (if exp >= 0 then ReadDigits(l) * Pow(10, exp) else ReadDigits(l)) > 0
    requires comp.Value() == (if exp >= 0 then u else u * Pow(10, -exp)) > 0
    requires 1 <= u < Pow(2, 54) && -1075 <= e <= 970 && NearBelow(l, u, e)
    requires full.touched <= 58 && comp.touched <= 58
    modifies full, full.bits, comp, comp.bits
    ensures full.Valid() && comp.Valid() && full.Normal() && comp.Normal()
    ensures full.Value() == old(full.Value()) * (if e > 0 then 1 else Pow(2, -e)) > 0
    ensures comp.Value() == old(comp.Value()) * (if e > 0 then Pow(2, e) else 1) > 0
    ensures full.touched <= 58 && comp.touched <= 58
  {
    hide Pow, Val, Order;
    TwoSizes(l, u, e);
    if e > 0 {
      ShiftRoom(comp.bits[..comp.used], e);
      comp.MulPow2(e);
    } else {
      ShiftRoom(full.bits[..full.used], -e);
      full.MulPow2(-e);
    }
  }

  lemma TwoSizes(l: Literal, u: nat, e: int)
    requires Readable(l) && 1 <= u < Pow(2, 54) && -1075 <= e <= 970 && NearBelow(l, u, e)
    ensures var x := ReadScale(l);
            var f, c := if x >= 0 then ReadDigits(l) * Pow(10, x) else ReadDigits(l),
                        if x >= 0 then u else u * Pow(10, -x);
            && (e <= 0 ==> 0 < f * Pow(2, -e) < Pow(B, 57))
            && (e > 0 ==> 0 < c * Pow(2, e) < Pow(B, 57))
  {
    hide Pow, Order;
    TenSizes(l, u);
    ReadSize(l);
    BitSizes();
    PowMono(2, 1100, 2570);
    var x := ReadScale(l);
    if e <= 0 {
      PowMono(2, -e, 1075);
      PowPositive(2, -e);
      var f := if x >= 0 then ReadDigits(l) * Pow(10, x) else ReadDigits(l);
      ProductSize(f, 2570, Pow(2, -e), 1075);
      MulGe(f, Pow(2, -e));
    } else {
      PowMono(2, e, 970);
      PowPositive(2, e);
      if x >= 0 {
        ProductSize(u, 54, Pow(2, e), 970);
        MulGe(u, Pow(2, e));
      } else {
        NearSize(l, u, e);
        MulGe(u * Pow(10, -x), Pow(2, e));
      }
    }
  }

  // ---------------------------------------------------------------- rounding

  /** The order of a literal and the half-way point above the double `raw`. */
  function Above(l: Literal, raw: nat): int
    requires Readable(l)
  {
    Order(Digits(l), Scale(l), UpperSig(raw), UpperExp(raw))
  }

  /** `raw` is the double nearest to the literal, the even one of two equally near ones
      (`INF` when the literal is beyond the largest half-way point). */
  predicate RoundsTo(l: Literal, raw: nat)
    requires Readable(l)
  {
    && (raw > 0 ==> Above(l, raw - 1) > 0 || (Above(l, raw - 1) == 0 && raw % 2 == 0))
    && (raw < INF ==> Above(l, raw) < 0 || (Above(l, raw) == 0 && raw % 2 == 0))
  }

  /** The half-way point below a double is at least the one computed as if the exponent did
      not change there. */
  lemma HalfWayBelow(l: Literal, raw: nat)
    requires Readable(l) && 0 < raw < INF && Above(l, raw - 1) >= 0
    ensures UpperSig(raw) >= 3 && Order(Digits(l), Scale(l), UpperSig(raw) - 2, UpperExp(raw)) >= 0
  {
    UpperBelow(raw);
    var n, x := Digits(l), Scale(l);
    var u, e := UpperSig(raw) - 2, UpperExp(raw);
    hide Order, Digits, Scale, Pow, UpperSig, UpperExp;
    if UpperExp(raw - 1) != e {
      HalfUnit(n, x, u, e);
      LowerHalfWay(n, x, UpperSig(raw - 1), 2 * u, e - 1);
    }
  }

  lemma UpperBelow(raw: nat)
    requires 0 < raw < INF
    ensures UpperSig(raw) >= 3
    ensures (UpperExp(raw - 1) == UpperExp(raw) && UpperSig(raw - 1) == UpperSig(raw) - 2)
            || (UpperExp(raw - 1) == UpperExp(raw) - 1 && UpperSig(raw - 1) >= 2 * (UpperSig(raw) - 2))
  {
    hide Pow;
    NextDouble(raw - 1);
  }

  lemma HalfUnit(n: nat, x: int, u: nat, e: int)
    ensures Order(n, x, 2 * u, e - 1) == Order(n, x, u, e)
  {
    hide Pow;
    var b := Clear(e - 1);
    OrderScale(n, x, u, e, Clear(x), b);
    OrderScale(n, x, 2 * u, e - 1, Clear(x), b);
    PowStep(2, e - 1 + b);
    var p, q := Pow(10, Clear(x)), Pow(2, e - 1 + b);
    assert 2 * u * p * q == u * p * (2 * q) by { MulAssoc(u * p, 2, q); assert 2 * u * p == u * p * 2; }
  }

  /** The number read, ten times the literal, is above half the least double. */
  predicate TenfoldAbove(l: Literal)
    requires Readable(l)
  {
    Order(ReadDigits(l), ReadScale(l), UpperSig(0), UpperExp(0)) > 0
  }

  /** The literal goes to the successor of the candidate, not to the candidate. */
  predicate GoesUp(l: Literal, raw: nat)
    requires Readable(l)
  {
    Above(l, raw) > 0 || (Above(l, raw) == 0 && raw % 2 == 1)
  }

  /** What `read_num` returns: the candidate or its successor. It is the nearest double with
      these exceptions only: more than 768 digits exactly half-way above an even candidate, and
      a misplaced point where the literal goes down and the number read goes up. */
  method Decide(l: Literal, raw: nat) returns (r: nat)
    requires Readable(l) && raw < INF
    requires RoundsTo(l, raw) || RoundsTo(l, raw + 1)
    ensures raw <= r <= raw + 1
    ensures !Misplaced(l) ==> (r == raw + 1 <==> GoesUp(l, raw) || (TooManyDigits(l) && Above(l, raw) == 0))
    ensures Misplaced(l) ==> (r == raw + 1 <==> raw > 0 || TenfoldAbove(l))
    ensures RoundsTo(l, r) <==> (r == raw + 1 <==> GoesUp(l, raw))
  {
    var u, e := UpperSig(raw), UpperExp(raw);
    CandidateFacts(l, raw);
    hide Order, ReadDigits, ReadScale, Pow, UpperSig, UpperExp, Misplaced, TooManyDigits, Readable, RoundsTo, NearBelow, Above, GoesUp, TenfoldAbove;
    var sign, _ := CompareHalfWay(l, u, e);
    SignDecides(l, raw, sign);
    NearerRounds(l, raw);
    r := Rounded(sign, raw);
  }

  /** The last lines of the slow path. */
  function Rounded(sign: int, raw: nat): nat {
    if sign != 0 then raw + (if sign > 0 then 1 else 0) else raw + raw % 2
  }

  lemma CandidateFacts(l: Literal, raw: nat)
    requires Readable(l) && raw < INF && (RoundsTo(l, raw) || RoundsTo(l, raw + 1))
    ensures var u, e := UpperSig(raw), UpperExp(raw);
            u < B && 1 <= u < Pow(2, 54) && -1075 <= e <= 970 && NearBelow(l, u, e)
  {
    NextDouble(raw);
    NearCandidate(l, raw);
    Pow54();
    hide Order, Digits, Scale, Pow, UpperSig, UpperExp, Readable, RoundsTo;
  }

  /** What the sign of the comparison says of the literal. */
  lemma SignDecides(l: Literal, raw: nat, sign: int)
    requires Readable(l) && raw < INF && (RoundsTo(l, raw) || RoundsTo(l, raw + 1))
    requires sign == Order(ReadDigits(l), ReadScale(l), UpperSig(raw), UpperExp(raw))
    ensures !Misplaced(l) ==> (Rounded(sign, raw) == raw + 1 <==> GoesUp(l, raw) || (TooManyDigits(l) && Above(l, raw) == 0))
    ensures Misplaced(l) ==> (Rounded(sign, raw) == raw + 1 <==> raw > 0 || TenfoldAbove(l))
  {
    var u, e := UpperSig(raw), UpperExp(raw);
    NextDouble(raw);
    NearCandidate(l, raw);
    hide Order, Digits, Scale, ReadDigits, ReadScale, Pow, UpperSig, UpperExp, Misplaced, TooManyDigits, Readable, RoundsTo;
    if !Misplaced(l) {
      ReadOrder(l, u, e);
    } else if raw > 0 {
      MisplacedOrder(l, u, e);
    }
  }

  /** The side of the half-way point decides between a double and its successor. */
  lemma NearerRounds(l: Literal, raw: nat)
    requires Readable(l) && raw < INF && (RoundsTo(l, raw) || RoundsTo(l, raw + 1))
    ensures RoundsTo(l, raw + 1) <==> GoesUp(l, raw)
    ensures RoundsTo(l, raw) <==> !GoesUp(l, raw)
  {
    hide Above, Readable;
  }

  lemma NearCandidate(l: Literal, raw: nat)
    requires Readable(l) && raw < INF && (RoundsTo(l, raw) || RoundsTo(l, raw + 1))
    ensures NearBelow(l, UpperSig(raw), UpperExp(raw))
    ensures raw > 0 ==> UpperSig(raw) >= 3 && Order(Digits(l), Scale(l), UpperSig(raw) - 2, UpperExp(raw)) >= 0
  {
    hide Order, Digits, Scale;
    if raw > 0 {
      if Above(l, raw) >= 0 {
        LowerHalfWay(Digits(l), Scale(l), UpperSig(raw), UpperSig(raw) - 2, UpperExp(raw));
      } else {
        HalfWayBelow(l, raw);
      }
    }
  }
}
