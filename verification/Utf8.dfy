/** The byte-sequence tests and the escape arithmetic of yyjson.c against the syntax of
    section 4 of RFC 3629. */
module Utf8 {
  type u8 = bv8

  /** `byte_load_4` on a little-endian machine. */
  function Load(a: u8, b: u8, c: u8, d: u8): bv32 {
    (a as bv32) | ((b as bv32) << 8) | ((c as bv32) << 16) | ((d as bv32) << 24)
  }

  // ---------------------------------------------------------------- the masks

  predicate IsSeq1(uni: bv32) { uni & 0x80 == 0 }

  predicate IsSeq2(uni: bv32) { uni & 0xC0E0 == 0x80C0 && uni & 0x1E != 0 }

  predicate IsSeq3(uni: bv32) {
    uni & 0xC0C0F0 == 0x8080E0 && uni & 0x200F != 0 && uni & 0x200F != 0x200D
  }

  predicate IsSeq4(uni: bv32) {
    uni & 0xC0C0C0F8 == 0x808080F0 && uni & 0x3007 != 0 && (uni & 0x3007 & 0x04 == 0 || uni & 0x3007 & 0x3003 == 0)
  }

  // ---------------------------------------------------------------- RFC 3629

  predicate Tail(b: u8) { 0x80 <= b <= 0xBF }

  predicate Rfc2(a: u8, b: u8) { 0xC2 <= a <= 0xDF && Tail(b) }

  predicate Rfc3(a: u8, b: u8, c: u8) {
    || (a == 0xE0 && 0xA0 <= b <= 0xBF && Tail(c))
    || (0xE1 <= a <= 0xEC && Tail(b) && Tail(c))
    || (a == 0xED && 0x80 <= b <= 0x9F && Tail(c))
    || (0xEE <= a <= 0xEF && Tail(b) && Tail(c))
  }

  predicate Rfc4(a: u8, b: u8, c: u8, d: u8) {
    || (a == 0xF0 && 0x90 <= b <= 0xBF && Tail(c) && Tail(d))
    || (0xF1 <= a <= 0xF3 && Tail(b) && Tail(c) && Tail(d))
    || (a == 0xF4 && 0x80 <= b <= 0x8F && Tail(c) && Tail(d))
  }

  lemma Seq1Is(a: u8, b: u8, c: u8, d: u8)
    ensures IsSeq1(Load(a, b, c, d)) <==> a < 0x80
  {
  }

  lemma Seq2Is(a: u8, b: u8, c: u8, d: u8)
    ensures IsSeq2(Load(a, b, c, d)) <==> Rfc2(a, b)
  {
  }

  lemma Seq3Is(a: u8, b: u8, c: u8, d: u8)
    ensures IsSeq3(Load(a, b, c, d)) <==> Rfc3(a, b, c)
  {
  }

  lemma Seq4Is(a: u8, b: u8, c: u8, d: u8)
    ensures IsSeq4(Load(a, b, c, d)) <==> Rfc4(a, b, c, d)
  {
  }

  // ---------------------------------------------------------------- code points

  /** `write_str`: the code units that stand for a sequence. */
  function Unit2(a: u8, b: u8): bv16 { (((a & 0x1F) as bv16) << 6) | ((b & 0x3F) as bv16) }

  function Unit3(a: u8, b: u8, c: u8): bv16 {
    (((a & 0x0F) as bv16) << 12) | (((b & 0x3F) as bv16) << 6) | ((c & 0x3F) as bv16)
  }

  function Point4(a: u8, b: u8, c: u8, d: u8): bv32 {
    (((a & 0x07) as bv32) << 18) | (((b & 0x3F) as bv32) << 12) | (((c & 0x3F) as bv32) << 6) | ((d & 0x3F) as bv32)
  }

  function High(point: bv32): bv16 { ((((point - 0x10000) >> 10) & 0xFFFF) as bv16) + 0xD800 }

  function Low(point: bv32): bv16 { (((point - 0x10000) & 0x3FF) as bv16) + 0xDC00 }

  /** `read_uni_esc`: the bytes that a code unit outside the surrogates stands for. */
  function Bytes16(u: bv16): seq<u8> {
    if u >= 0x800 then [Lead3(u), Middle3(u), End16(u)]
    else if u >= 0x80 then [Lead2(u), End16(u)]
    else [u as u8]
  }

  function Lead3(u: bv16): u8 { 0xE0 | ((u >> 12) as u8) }

  function Middle3(u: bv16): u8 { 0x80 | (((u >> 6) & 0x3F) as u8) }

  function Lead2(u: bv16): u8
    requires u < 0x800
  {
    0xC0 | ((u >> 6) as u8)
  }

  function End16(u: bv16): u8 { 0x80 | ((u & 0x3F) as u8) }

  function Bytes32(u: bv32): seq<u8>
    requires u < 0x200000
  {
    [Lead(u), Tail2(u), Tail1(u), Tail0(u)]
  }

  function Lead(u: bv32): u8
    requires u < 0x200000
  {
    0xF0 | ((u >> 18) as u8)
  }

  function Tail2(u: bv32): u8 { 0x80 | (((u >> 12) & 0x3F) as u8) }

  function Tail1(u: bv32): u8 { 0x80 | (((u >> 6) & 0x3F) as u8) }

  function Tail0(u: bv32): u8 { 0x80 | ((u & 0x3F) as u8) }

  predicate Surrogate(u: bv16) { u & 0xF800 == 0xD800 }

  function Joined(hi: bv16, lo: bv16): bv32 {
    ((((hi as bv32) - 0xD800) << 10) | ((lo as bv32) - 0xDC00)) + 0x10000
  }

  lemma Unit1Back(a: u8)
    requires a < 0x80
    ensures !Surrogate(a as bv16) && Bytes16(a as bv16) == [a]
  {
  }

  lemma Unit2Parts(a: u8, b: u8)
    requires Rfc2(a, b)
    ensures var u := Unit2(a, b); 0x80 <= u < 0x800 && Lead2(u) == a && End16(u) == b && !Surrogate(u)
  {
  }

  lemma Unit2Back(a: u8, b: u8)
    requires Rfc2(a, b)
    ensures !Surrogate(Unit2(a, b)) && Bytes16(Unit2(a, b)) == [a, b]
  {
    hide Unit2, Lead2, End16, Surrogate;
    Unit2Parts(a, b);
  }

  lemma Unit3Range(a: u8, b: u8, c: u8)
    requires Rfc3(a, b, c)
    ensures Unit3(a, b, c) >= 0x800 && !Surrogate(Unit3(a, b, c))
  {
  }

  lemma Unit3Parts(a: u8, b: u8, c: u8)
    requires Rfc3(a, b, c)
    ensures Lead3(Unit3(a, b, c)) == a && Middle3(Unit3(a, b, c)) == b && End16(Unit3(a, b, c)) == c
  {
  }

  lemma Unit3Back(a: u8, b: u8, c: u8)
    requires Rfc3(a, b, c)
    ensures !Surrogate(Unit3(a, b, c)) && Bytes16(Unit3(a, b, c)) == [a, b, c]
  {
    hide Unit3, Lead3, Middle3, End16, Surrogate;
    Unit3Range(a, b, c);
    Unit3Parts(a, b, c);
  }

  lemma PointRange(a: u8, b: u8, c: u8, d: u8)
    requires Rfc4(a, b, c, d)
    ensures 0x10000 <= Point4(a, b, c, d) < 0x110000
  {
  }

  lemma PointLead(a: u8, b: u8, c: u8, d: u8)
    requires Rfc4(a, b, c, d)
    ensures Point4(a, b, c, d) < 0x200000 && Lead(Point4(a, b, c, d)) == a
  {
  }

  lemma PointTails(a: u8, b: u8, c: u8, d: u8)
    requires Tail(b) && Tail(c) && Tail(d)
    ensures Tail2(Point4(a, b, c, d)) == b && Tail1(Point4(a, b, c, d)) == c && Tail0(Point4(a, b, c, d)) == d
  {
  }

  lemma Point4Range(a: u8, b: u8, c: u8, d: u8)
    requires Rfc4(a, b, c, d)
    ensures 0x10000 <= Point4(a, b, c, d) < 0x110000 && Point4(a, b, c, d) < 0x200000
    ensures Bytes32(Point4(a, b, c, d)) == [a, b, c, d]
  {
    hide Point4, Lead, Tail2, Tail1, Tail0;
    PointRange(a, b, c, d);
    PointLead(a, b, c, d);
    PointTails(a, b, c, d);
  }

  lemma Halves(v: bv32)
    requires v < 0x100000
    ensures v >> 10 < 0x400 && ((v >> 10) << 10) | (v & 0x3FF) == v
    ensures (((v >> 10) & 0xFFFF) as bv16) as bv32 == v >> 10 && ((v & 0x3FF) as bv16) as bv32 == v & 0x3FF
    ensures ((v >> 10) & 0xFFFF) as bv16 < 0x400 && (v & 0x3FF) as bv16 < 0x400
  {
  }

  lemma Surrogates(x: bv16)
    requires x < 0x400
    ensures (x + 0xD800) & 0xFC00 == 0xD800 && Surrogate(x + 0xD800) && ((x + 0xD800) as bv32) - 0xD800 == x as bv32
    ensures (x + 0xDC00) & 0xFC00 == 0xDC00 && ((x + 0xDC00) as bv32) - 0xDC00 == x as bv32
  {
  }

  lemma PairBack(point: bv32)
    requires 0x10000 <= point < 0x110000
    ensures var hi, lo := High(point), Low(point);
            hi & 0xFC00 == 0xD800 && lo & 0xFC00 == 0xDC00 && Surrogate(hi) && Joined(hi, lo) == point
  {
    var v := point - 0x10000;
    assert v < 0x100000 && v + 0x10000 == point;
    Halves(v);
    Surrogates(((v >> 10) & 0xFFFF) as bv16);
    Surrogates((v & 0x3FF) as bv16);
  }

  lemma Point4Back(a: u8, b: u8, c: u8, d: u8)
    requires Rfc4(a, b, c, d)
    ensures var hi, lo := High(Point4(a, b, c, d)), Low(Point4(a, b, c, d));
            && hi & 0xFC00 == 0xD800 && lo & 0xFC00 == 0xDC00 && Surrogate(hi)
            && Joined(hi, lo) < 0x200000 && Bytes32(Joined(hi, lo)) == [a, b, c, d]
  {
    hide Point4, High, Low, Joined, Bytes32, Rfc4, Surrogate;
    Point4Range(a, b, c, d);
    PairBack(Point4(a, b, c, d));
  }

  // ---------------------------------------------------------------- hexadecimal digits

  /** `esc_hex_char_table` */
  function HexDigit(n: u8): u8 { if n < 10 then 0x30 + n else 0x37 + n }

  function Hex4(u: bv16): seq<u8> {
    [HexDigit((u >> 12) as u8), HexDigit(((u >> 8) & 0xF) as u8), HexDigit(((u >> 4) & 0xF) as u8), HexDigit((u & 0xF) as u8)]
  }

  /** `hex_conv_table` */
  function HexConv(c: u8): bv16 {
    if 0x30 <= c <= 0x39 then (c - 0x30) as bv16
    else if 0x41 <= c <= 0x46 then (c - 0x37) as bv16
    else if 0x61 <= c <= 0x66 then (c - 0x57) as bv16
    else 0xF0
  }

  /** `hex_load_4` */
  function HexLoad(a: u8, b: u8, c: u8, d: u8): (r: (bool, bv16)) {
    var t0, t1 := (HexConv(a) << 8) | HexConv(c), (HexConv(b) << 8) | HexConv(d);
    ((t0 | t1) & 0xF0F0 == 0, (t0 << 4) | t1)
  }

  lemma DigitBack(n: u8)
    requires n < 16
    ensures HexConv(HexDigit(n)) == n as bv16
  {
  }

  lemma NibblesBack(u: bv16)
    ensures var t0, t1 := ((u >> 12) << 8) | ((u >> 4) & 0xF), (((u >> 8) & 0xF) << 8) | (u & 0xF);
            (t0 | t1) & 0xF0F0 == 0 && (t0 << 4) | t1 == u
  {
  }

  lemma NibbleCasts(u: bv16)
    ensures ((u >> 12) as u8) as bv16 == u >> 12 && (((u >> 8) & 0xF) as u8) as bv16 == (u >> 8) & 0xF
    ensures (((u >> 4) & 0xF) as u8) as bv16 == (u >> 4) & 0xF && ((u & 0xF) as u8) as bv16 == u & 0xF
    ensures (u >> 12) as u8 < 16 && ((u >> 8) & 0xF) as u8 < 16 && ((u >> 4) & 0xF) as u8 < 16 && (u & 0xF) as u8 < 16
  {
  }

  /** Four digits written are read back as the same number. */
  lemma HexBack(u: bv16)
    ensures var h := Hex4(u); HexLoad(h[0], h[1], h[2], h[3]) == (true, u)
  {
    hide HexConv, HexDigit;
    NibblesBack(u);
    NibbleCasts(u);
    DigitBack((u >> 12) as u8);
    DigitBack(((u >> 8) & 0xF) as u8);
    DigitBack(((u >> 4) & 0xF) as u8);
    DigitBack((u & 0xF) as u8);
  }
}
