/** The integer printer of yyjson.c and the integer path of its number reader. */
module IntegerText {
  import opened Powers
  import opened DecimalText

  const U64: nat := 0x1_0000_0000_0000_0000
  const I64: nat := 0x8000_0000_0000_0000

  // ---------------------------------------------------------------- canonical decimal text

  /** The decimal digits of a number, without leading zeros. */
  function Decimal(v: nat): seq<byte> {
    if v < 10 then [48 + v] else Decimal(v / 10) + [48 + v % 10]
  }

  function Pair(v: nat): seq<byte>
    requires v < 100
  {
    [48 + v / 10, 48 + v % 10]
  }

  lemma AppendPair(h: nat, p: nat)
    requires h > 0 && p < 100
    ensures Decimal(100 * h + p) == Decimal(h) + Pair(p)
  {
    var v := 100 * h + p;
    assert v / 10 == 10 * h + p / 10 && v % 10 == p % 10;
    assert (10 * h + p / 10) / 10 == h && (10 * h + p / 10) % 10 == p / 10;
    assert Decimal(v) == Decimal(v / 10) + [48 + v % 10];
    assert Decimal(v / 10) == Decimal(h) + [48 + p / 10];
  }

  function Four(v: nat): seq<byte>
    requires v < 10000
  {
    Pair(v / 100) + Pair(v % 100)
  }

  lemma AppendFour(h: nat, v: nat)
    requires h > 0 && v < 10000
    ensures Decimal(10000 * h + v) == Decimal(h) + Four(v)
  {
    hide Decimal;
    AppendPair(h, v / 100);
    AppendPair(100 * h + v / 100, v % 100);
  }

  function Eight(v: nat): seq<byte>
    requires v < 100000000
  {
    Four(v / 10000) + Four(v % 10000)
  }

  lemma AppendEight(h: nat, v: nat)
    requires h > 0 && v < 100000000
    ensures Decimal(100000000 * h + v) == Decimal(h) + Eight(v)
  {
    hide Decimal, Four;
    AppendFour(h, v / 10000);
    AppendFour(10000 * h + v / 10000, v % 10000);
  }

  // ---------------------------------------------------------------- multiply and shift

  /** `(x * 5243) >> 19` */
  lemma HundredthIs(x: nat)
    requires x < 10000
    ensures x * 5243 / 524288 == x / 100 && x * 5243 < 0x1_0000_0000
  {
    var q, r := x / 100, x % 100;
    assert x * 5243 == 524288 * q + (12 * q + 5243 * r);
  }

  /** `(x * 429497) >> 32` */
  lemma TenThousandthIs(x: nat)
    requires x < 1000000
    ensures x * 429497 / 4294967296 == x / 10000 && x * 429497 < U64
  {
    var q, r := x / 10000, x % 10000;
    assert x * 429497 == 4294967296 * q + (2704 * q + 429497 * r);
  }

  /** `(x * 109951163) >> 40` */
  lemma WideTenThousandthIs(x: nat)
    requires x < 100000000
    ensures x * 109951163 / 1099511627776 == x / 10000 && x * 109951163 < U64
  {
    var q, r := x / 10000, x % 10000;
    assert x * 109951163 == 1099511627776 * q + (2224 * q + 109951163 * r);
  }

  // ---------------------------------------------------------------- the printer

  /** `digit_table`, the pairs from 00 to 99 one after the other. */
  function TableAt(k: nat): byte
    requires k < 200
  {
    if k % 2 == 0 then 48 + k / 2 / 10 else 48 + k / 2 % 10
  }

  method Put2(buf: array<byte>, at: nat, k: nat)
    requires at + 2 <= buf.Length && k + 1 < 200
    modifies buf
    ensures buf[..at + 2] == old(buf[..at]) + [TableAt(k), TableAt(k + 1)]
  {
    buf[at], buf[at + 1] := TableAt(k), TableAt(k + 1);
    assert buf[..at + 2] == buf[..at] + [buf[at], buf[at + 1]];
  }

  method PutPair(buf: array<byte>, at: nat, v: nat)
    requires at + 2 <= buf.Length && v < 100
    modifies buf
    ensures buf[..at + 2] == old(buf[..at]) + Pair(v)
  {
    Put2(buf, at, v * 2);
  }

  /** One or two digits: a leading zero is skipped in the table, and the byte after it that
      was copied too is given up. */
  method PutLead(buf: array<byte>, at: nat, v: nat) returns (end: nat)
    requires at + 2 <= buf.Length && v < 100
    modifies buf
    ensures at < end <= at + 2 && buf[..end] == old(buf[..at]) + Decimal(v)
  {
    var lz := if v < 10 then 1 else 0;
    Put2(buf, at, v * 2 + lz);
    end := at + 2 - lz;
    assert buf[..end] == buf[..at + 2][..end];
    assert Decimal(v) == [TableAt(v * 2 + lz), TableAt(v * 2 + lz + 1)][..2 - lz];
  }

  /** `write_u32_len_4` */
  method Write4(buf: array<byte>, at: nat, val: nat)
    requires at + 4 <= buf.Length && val < 10000
    modifies buf
    ensures buf[..at + 4] == old(buf[..at]) + Four(val)
  {
    HundredthIs(val);
    var aa := val * 5243 / 524288;
    var bb := val - aa * 100;
    PutPair(buf, at, aa);
    PutPair(buf, at + 2, bb);
  }

  /** `write_u32_len_8` */
  method Write8(buf: array<byte>, at: nat, val: nat)
    requires at + 8 <= buf.Length && val < 100000000
    modifies buf
    ensures buf[..at + 8] == old(buf[..at]) + Eight(val)
  {
    WideTenThousandthIs(val);
    var aabb := val * 109951163 / 1099511627776;
    var ccdd := val - aabb * 10000;
    HundredthIs(aabb);
    HundredthIs(ccdd);
    var aa, cc := aabb * 5243 / 524288, ccdd * 5243 / 524288;
    var bb, dd := aabb - aa * 100, ccdd - cc * 100;
    PutPair(buf, at, aa);
    PutPair(buf, at + 2, bb);
    PutPair(buf, at + 4, cc);
    PutPair(buf, at + 6, dd);
  }

  /** The branch for five and six digits. */
  method Write5To6(buf: array<byte>, at: nat, val: nat) returns (end: nat)
    requires at + 6 <= buf.Length && 10000 <= val < 1000000
    modifies buf
    ensures end <= at + 6 && buf[..end] == old(buf[..at]) + Decimal(val)
  {
    TenThousandthIs(val);
    var aa := val * 429497 / 4294967296;
    var bbcc := val - aa * 10000;
    HundredthIs(bbcc);
    var bb := bbcc * 5243 / 524288;
    var cc := bbcc - bb * 100;
    AppendFour(aa, bbcc);
    hide Decimal;
    end := PutLead(buf, at, aa);
    PutPair(buf, end, bb);
    PutPair(buf, end + 2, cc);
    end := end + 4;
  }

  /** The branch for seven and eight digits. */
  method Write7To8(buf: array<byte>, at: nat, val: nat) returns (end: nat)
    requires at + 8 <= buf.Length && 1000000 <= val < 100000000
    modifies buf
    ensures end <= at + 8 && buf[..end] == old(buf[..at]) + Decimal(val)
  {
    WideTenThousandthIs(val);
    var aabb := val * 109951163 / 1099511627776;
    var ccdd := val - aabb * 10000;
    HundredthIs(aabb);
    HundredthIs(ccdd);
    var aa, cc := aabb * 5243 / 524288, ccdd * 5243 / 524288;
    var bb, dd := aabb - aa * 100, ccdd - cc * 100;
    AppendPair(aa, bb);
    AppendFour(aabb, ccdd);
    hide Decimal;
    end := PutLead(buf, at, aa);
    PutPair(buf, end, bb);
    PutPair(buf, end + 2, cc);
    PutPair(buf, end + 4, dd);
    end := end + 6;
  }

  /** `write_u32_len_5_to_8` */
  method Write5To8(buf: array<byte>, at: nat, val: nat) returns (end: nat)
    requires at + 8 <= buf.Length && 10000 <= val < 100000000
    modifies buf
    ensures end <= at + 8 && buf[..end] == old(buf[..at]) + Decimal(val)
  {
    hide Decimal;
    if val < 1000000 { end := Write5To6(buf, at, val); } else { end := Write7To8(buf, at, val); }
  }

  /** `write_u32_len_1_to_8` */
  method Write1To8(buf: array<byte>, at: nat, val: nat) returns (end: nat)
    requires at + 8 <= buf.Length && val < 100000000
    modifies buf
    ensures end <= at + 8 && buf[..end] == old(buf[..at]) + Decimal(val)
  {
    hide Decimal;
    if val < 100 {
      end := PutLead(buf, at, val);
    } else if val < 10000 {
      HundredthIs(val);
      var aa := val * 5243 / 524288;
      var bb := val - aa * 100;
      AppendPair(aa, bb);
      end := PutLead(buf, at, aa);
      PutPair(buf, end, bb);
      end := end + 2;
    } else {
      end := Write5To8(buf, at, val);
    }
  }

  /** `write_u64`: the canonical decimal text of every number. */
  method WriteU64(buf: array<byte>, at: nat, val: u64) returns (end: nat)
    requires at + 20 <= buf.Length
    modifies buf
    ensures end <= at + 20 && buf[..end] == old(buf[..at]) + Decimal(val)
  {
    hide Decimal, Four, Eight;
    if val < 100000000 {
      end := Write1To8(buf, at, val);
    } else if val < 100000000 * 100000000 {
      var hgh := val / 100000000;
      var low := val - hgh * 100000000;
      end := Write1To8(buf, at, hgh);
      Write8(buf, end, low);
      AppendEight(hgh, low);
      end := end + 8;
    } else {
      var tmp := val / 100000000;
      var low := val - tmp * 100000000;
      var hgh := tmp / 10000;
      var mid := tmp - hgh * 10000;
      end := Write5To8(buf, at, hgh);
      Write4(buf, end, mid);
      Write8(buf, end + 4, low);
      AppendFour(hgh, mid);
      AppendEight(tmp, low);
      end := end + 12;
    }
  }

  /** A stored integer: its subtype bit and its 64 bits. */
  datatype Number = Int(sint: bool, raw: u64) | Other

  function Negated(v: u64): u64 { (U64 - v) % U64 }

  predicate Negative(sint: bool, raw: u64) { sint && raw >= I64 }

  /** The text of a stored integer. */
  function Printed(sint: bool, raw: u64): seq<byte> {
    if Negative(sint, raw) then [45] + Decimal(Negated(raw)) else Decimal(raw)
  }

  /** The integer part of `write_num`: the minus sign is always written, and overwritten if the
      number is not negative. */
  method WriteNum(buf: array<byte>, at: nat, sint: bool, raw: u64) returns (end: nat)
    requires at + 21 <= buf.Length
    modifies buf
    ensures end <= at + 21 && buf[..end] == old(buf[..at]) + Printed(sint, raw)
  {
    hide Decimal;
    var sign := if Negative(sint, raw) then 1 else 0;
    buf[at] := 45;
    assert buf[..at] == old(buf[..at]) && buf[..at + 1] == buf[..at] + [45];
    end := WriteU64(buf, at + sign, if sign == 1 then Negated(raw) else raw);
  }

  // ---------------------------------------------------------------- the reader

  /** `char_is_fp` */
  predicate Fp(c: byte) { c == 46 || c == 101 || c == 69 }

  /** Where the digits that begin at `i` end. */
  function RunEnd(text: seq<byte>, i: nat): nat
    decreases |text| - i
  {
    if IsDigit(At(text, i)) then RunEnd(text, i + 1) else i
  }

  ghost predicate AllDigitsAt(text: seq<byte>, i: nat, j: nat) { forall p :: i <= p < j ==> IsDigit(At(text, p)) }

  /** The value of the digits from `i` to `j`. */
  function ValueOf(text: seq<byte>, i: nat, j: nat): nat {
    if j <= i then 0 else ValueOf(text, i, j - 1) * 10 + (if IsDigit(At(text, j - 1)) then DigitOf(At(text, j - 1)) else 0)
  }

  function Stored(sign: bool, v: u64): Number { Int(sign, if sign then Negated(v) else v) }

  /** What a literal at `hdr` reads as, if it is an integer that fits. */
  function Integer(text: seq<byte>, hdr: nat): Number {
    var sign := At(text, hdr) == 45;
    var i := if sign then hdr + 1 else hdr;
    var j := RunEnd(text, i);
    if j == i || Fp(At(text, j)) || (j > i + 1 && At(text, i) == 48) then Other
    else if ValueOf(text, i, j) < (if sign then I64 + 1 else U64) then Stored(sign, ValueOf(text, i, j))
    else Other
  }

  lemma {:induction false} RunIs(text: seq<byte>, i: nat)
    ensures i <= RunEnd(text, i) && AllDigitsAt(text, i, RunEnd(text, i)) && !IsDigit(At(text, RunEnd(text, i)))
    decreases |text| - i
  {
    if IsDigit(At(text, i)) { RunIs(text, i + 1); }
  }

  lemma {:induction false} RunTo(text: seq<byte>, i: nat, j: nat)
    requires i <= j && AllDigitsAt(text, i, j)
    ensures RunEnd(text, i) == RunEnd(text, j)
    decreases j - i
  {
    if i < j { RunTo(text, i + 1, j); }
  }

  lemma {:induction false} ValueBound(text: seq<byte>, i: nat, j: nat)
    requires i <= j
    ensures ValueOf(text, i, j) < Pow(10, j - i)
  {
    if i < j { ValueBound(text, i, j - 1); }
  }

  lemma {:induction false} ValueLeast(text: seq<byte>, i: nat, j: nat)
    requires i < j && IsDigit(At(text, i)) && At(text, i) != 48
    ensures ValueOf(text, i, j) >= Pow(10, j - i - 1)
  {
    if i + 1 < j {
      ValueLeast(text, i, j - 1);
    } else {
      PowOne(10);
    }
  }

  /** The loop over the first digits: at most nineteen of them. */
  method ReadDigits(text: seq<byte>, i: nat) returns (sig: u64, j: nat)
    requires IsDigit(At(text, i))
    ensures i < j <= i + 19 && AllDigitsAt(text, i, j) && sig == ValueOf(text, i, j)
    ensures j < i + 19 ==> !IsDigit(At(text, j))
  {
    sig := At(text, i) - 48;
    j := i + 1;
    TenTo19();
    while j < i + 19
      invariant i < j <= i + 19 && AllDigitsAt(text, i, j) && sig == ValueOf(text, i, j)
    {
      var num := (At(text, j) as int - 48) % 256;
      if num > 9 { return; }
      ValueBound(text, i, j + 1);
      PowMono(10, j + 1 - i, 19);
      hide Pow;
      sig := num + sig * 10;
      j := j + 1;
    }
  }

  lemma TenTo19()
    ensures Pow(10, 19) == 10000000000000000000
  {
    hide Pow;
    assert Pow(10, 2) == 100 by { PowOne(10); PowStep(10, 1); }
    PowAdd(10, 2, 2);
    PowAdd(10, 4, 4);
    PowAdd(10, 8, 8);
    PowAdd(10, 16, 2);
    PowOne(10);
    PowAdd(10, 18, 1);
  }

  predicate DigitOrFp(c: byte) { IsDigit(c) || Fp(c) }

  /** `read_num`, as far as it returns integers; `Other` stands for the paths that return a
      floating-point number or an error. */
  method ReadInteger(text: seq<byte>, hdr: nat) returns (r: Number, end: nat)
    ensures r == Integer(text, hdr)
    ensures r.Int? ==> end == RunEnd(text, if At(text, hdr) == 45 then hdr + 1 else hdr)
  {
    var sign := At(text, hdr) == 45;
    var cur := if sign then hdr + 1 else hdr;
    if !IsDigit(At(text, cur)) { return Other, cur; }
    if At(text, cur) == 48 {
      RunIs(text, cur + 1);
      assert ValueOf(text, cur, cur) == 0 && ValueOf(text, cur, cur + 1) == 0;
      if DigitOrFp(At(text, cur + 1)) { return Other, cur; }
      return Int(sign, 0), cur + 1;
    }
    var sig, j := ReadDigits(text, cur);
    RunTo(text, cur, j);
    if j < cur + 19 {
      ShortValue(text, cur, j);
      if Fp(At(text, j)) { return Other, cur; }
      return Stored(sign, sig), j;
    }
    if !DigitOrFp(At(text, j)) {
      if sign && sig > I64 { return Other, cur; }
      return Stored(sign, sig), j;
    }
    if IsDigit(At(text, j)) {
      LongValue(text, cur);
      r, end := TwentyDigits(text, cur, j, sign, sig);
      return;
    }
    return Other, cur;
  }

  lemma ShortValue(text: seq<byte>, i: nat, j: nat)
    requires i <= j < i + 19
    ensures ValueOf(text, i, j) < I64
  {
    ValueBound(text, i, j);
    PowMono(10, j - i, 18);
    PowStep(10, 18);
    TenTo19();
    hide Pow;
  }

  lemma LongValue(text: seq<byte>, i: nat)
    requires AllDigitsAt(text, i, i + 20) && At(text, i) != 48
    ensures RunEnd(text, i) >= i + 20 && ValueOf(text, i, i + 20) >= 10000000000000000000
    ensures RunEnd(text, i) > i + 20 ==> ValueOf(text, i, RunEnd(text, i)) >= U64
  {
    RunTo(text, i, i + 20);
    RunIs(text, i + 20);
    var j := RunEnd(text, i);
    assert IsDigit(At(text, i));
    ValueLeast(text, i, i + 20);
    ValueLeast(text, i, j);
    TenTo19();
    if j > i + 20 {
      PowMono(10, 20, j - i - 1);
      PowStep(10, 19);
    }
    hide Pow;
  }

  /** The label `digi_intg_more`: a twentieth digit. */
  method TwentyDigits(text: seq<byte>, cur: nat, j: nat, sign: bool, sig: u64) returns (r: Number, end: nat)
    requires j == cur + 19 && sig == ValueOf(text, cur, j) && AllDigitsAt(text, cur, j + 1) && At(text, cur) != 48
    requires RunEnd(text, cur) >= j + 1 && ValueOf(text, cur, j + 1) >= 10000000000000000000
    requires RunEnd(text, cur) > j + 1 ==> ValueOf(text, cur, RunEnd(text, cur)) >= U64
    ensures var k := RunEnd(text, cur);
            r == if Fp(At(text, k)) then Other
                 else if ValueOf(text, cur, k) < (if sign then I64 + 1 else U64) then Stored(sign, ValueOf(text, cur, k)) else Other
    ensures r.Int? ==> end == RunEnd(text, cur)
  {
    RunTo(text, cur, j + 1);
    RunIs(text, j + 1);
    if !DigitOrFp(At(text, j + 1)) {
      var num := At(text, j) - 48;
      if sig < (U64 - 1) / 10 || (sig == (U64 - 1) / 10 && num <= (U64 - 1) % 10) {
        if sign { return Other, cur; }
        return Stored(sign, num + sig * 10), j + 1;
      }
    }
    return Other, cur;
  }

  // ---------------------------------------------------------------- the round trip

  /** `text` reads `part` at `i`. */
  ghost predicate Reads(text: seq<byte>, i: nat, part: seq<byte>) {
    forall p :: i <= p < i + |part| ==> At(text, p) == part[p - i]
  }

  /** Canonical text holds the number and no leading zero. */
  lemma {:induction false} DecimalRead(text: seq<byte>, i: nat, v: nat)
    requires Reads(text, i, Decimal(v))
    ensures |Decimal(v)| > 0 && AllDigitsAt(text, i, i + |Decimal(v)|)
    ensures ValueOf(text, i, i + |Decimal(v)|) == v && (At(text, i) == 48 <==> v == 0)
  {
    var d := Decimal(v);
    if v < 10 {
      assert At(text, i) == d[0];
      assert ValueOf(text, i, i) == 0;
    } else {
      var h := Decimal(v / 10);
      assert d == h + [48 + v % 10];
      assert Reads(text, i, h) by { assert forall k :: 0 <= k < |h| ==> d[k] == h[k]; }
      DecimalRead(text, i, v / 10);
      assert At(text, i + |h|) == d[|h|];
      hide Decimal;
    }
  }

  /** Whatever was printed, followed by anything that is neither a digit nor part of a
      floating-point number, is read back as the same bits. */
  lemma RoundTrip(text: seq<byte>, hdr: nat, sint: bool, raw: u64)
    requires Reads(text, hdr, Printed(sint, raw))
    requires !DigitOrFp(At(text, hdr + |Printed(sint, raw)|))
    ensures Integer(text, hdr) == Int(Negative(sint, raw), raw)
  {
    hide Integer, Decimal, Reads;
    if Negative(sint, raw) {
      MinusRead(text, hdr, Decimal(Negated(raw)));
      IntegerRead(text, hdr, true, Negated(raw));
    } else {
      FirstDigit(text, hdr, raw);
      IntegerRead(text, hdr, false, raw);
    }
  }

  lemma MinusRead(text: seq<byte>, hdr: nat, d: seq<byte>)
    requires Reads(text, hdr, [45] + d)
    ensures At(text, hdr) == 45 && Reads(text, hdr + 1, d)
  {
    assert ([45] + d)[0] == 45;
    forall p | hdr + 1 <= p < hdr + 1 + |d| ensures At(text, p) == d[p - (hdr + 1)] {
      assert ([45] + d)[p - hdr] == d[p - (hdr + 1)];
    }
  }

  lemma FirstDigit(text: seq<byte>, i: nat, v: nat)
    requires Reads(text, i, Decimal(v))
    ensures At(text, i) != 45
  {
    DecimalRead(text, i, v);
    assert IsDigit(At(text, i));
  }

  /** A sign and canonical text are read as that number. */
  lemma IntegerRead(text: seq<byte>, hdr: nat, sign: bool, v: u64)
    requires sign == (At(text, hdr) == 45) && (sign ==> v <= I64)
    requires var i := if sign then hdr + 1 else hdr; Reads(text, i, Decimal(v)) && !DigitOrFp(At(text, i + |Decimal(v)|))
    ensures Integer(text, hdr) == Stored(sign, v)
  {
    var i, d := if sign then hdr + 1 else hdr, Decimal(v);
    DecimalRead(text, i, v);
    OneDigit(v);
    hide Decimal, ValueOf;
    RunTo(text, i, i + |d|);
    assert RunEnd(text, i + |d|) == i + |d|;
  }

  lemma OneDigit(v: nat)
    ensures |Decimal(v)| > 0 && (v == 0 ==> |Decimal(v)| == 1)
  {
  }
}
