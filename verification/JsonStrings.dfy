/** What the string reader and the string writer of yyjson.c compute, and why the one undoes
    the other. A position beyond the end of a text reads as zero, as the padding does. */
module JsonStrings {
  import opened Options
  import opened Utf8

  const QUOTE: u8 := 0x22
  const BACKSLASH: u8 := 0x5C
  const SLASH: u8 := 0x2F

  function At(t: seq<u8>, i: nat): u8 { if i < |t| then t[i] else 0 }

  // ---------------------------------------------------------------- well-formed text

  /** The length of the UTF-8 sequence at `i`, or 0 if there is none. */
  function SeqLen(t: seq<u8>, i: nat): nat {
    if At(t, i) < 0x80 then 1
    else if Rfc2(At(t, i), At(t, i + 1)) then 2
    else if Rfc3(At(t, i), At(t, i + 1), At(t, i + 2)) then 3
    else if Rfc4(At(t, i), At(t, i + 1), At(t, i + 2), At(t, i + 3)) then 4
    else 0
  }

  predicate WellFormed(t: seq<u8>, i: nat)
    decreases |t| - i
  {
    i >= |t| || (SeqLen(t, i) > 0 && WellFormed(t, i + SeqLen(t, i)))
  }

  // ---------------------------------------------------------------- reading

  datatype Error = InvalidEscape | InvalidHighSurrogate | NoLowSurrogate | InvalidLowEscape | InvalidLowSurrogate
                 | InvalidUtf8 | ControlCharacter

  /** What stands at a position: the closing quote, bytes that stand for themselves, or an
      escape sequence and the bytes it stands for. */
  datatype Step = Close | Plain(n: nat) | Escaped(n: nat, bytes: seq<u8>) | Bad(error: Error)

  /** `char_is_ascii_skip` */
  predicate Skip(c: u8) { 0x20 <= c < 0x80 && c != QUOTE && c != BACKSLASH }

  function ReadStep(t: seq<u8>, i: nat): Step {
    var c := At(t, i);
    if Skip(c) then Plain(1)
    else if c == QUOTE then Close
    else if c >= 0x80 then (if SeqLen(t, i) > 0 then Plain(SeqLen(t, i)) else Bad(InvalidUtf8))
    else if c == BACKSLASH then ReadEscape(t, i)
    else Bad(ControlCharacter)
  }

  function ReadEscape(t: seq<u8>, i: nat): Step {
    var c := At(t, i + 1);
    if c == QUOTE || c == BACKSLASH || c == SLASH then Escaped(2, [c])
    else if c == 0x62 then Escaped(2, [0x08])
    else if c == 0x66 then Escaped(2, [0x0C])
    else if c == 0x6E then Escaped(2, [0x0A])
    else if c == 0x72 then Escaped(2, [0x0D])
    else if c == 0x74 then Escaped(2, [0x09])
    else if c == 0x75 then ReadUnicode(t, i)
    else Bad(InvalidEscape)
  }

  /** `read_uni_esc` */
  function ReadUnicode(t: seq<u8>, i: nat): Step {
    var (ok, hi) := HexAt(t, i + 2);
    if !ok then Bad(InvalidEscape)
    else if !Surrogate(hi) then Escaped(6, Bytes16(hi))
    else if hi & 0xFC00 != 0xD800 then Bad(InvalidHighSurrogate)
    else if !(At(t, i + 6) == BACKSLASH && At(t, i + 7) == 0x75) then Bad(NoLowSurrogate)
    else ReadLow(t, i, hi)
  }

  function ReadLow(t: seq<u8>, i: nat, hi: bv16): Step
    requires hi & 0xFC00 == 0xD800
  {
    var (ok, lo) := HexAt(t, i + 8);
    if !ok then Bad(InvalidLowEscape)
    else if lo & 0xFC00 != 0xDC00 then Bad(InvalidLowSurrogate)
    else JoinedRange(hi, lo); Escaped(12, Bytes32(Joined(hi, lo)))
  }

  lemma JoinedRange(hi: bv16, lo: bv16)
    requires hi & 0xFC00 == 0xD800 && lo & 0xFC00 == 0xDC00
    ensures Joined(hi, lo) < 0x200000
  {
  }

  function HexAt(t: seq<u8>, i: nat): (bool, bv16) { HexLoad(At(t, i), At(t, i + 1), At(t, i + 2), At(t, i + 3)) }

  lemma SeqFits(t: seq<u8>, i: nat)
    requires i < |t|
    ensures i + SeqLen(t, i) <= |t|
  {
  }

  lemma PlainFits(t: seq<u8>, i: nat)
    requires ReadStep(t, i).Plain?
    ensures 0 < ReadStep(t, i).n && i + ReadStep(t, i).n <= |t|
  {
    if i < |t| { SeqFits(t, i); }
  }

  /** The outcome of reading from a position on; `plain` says that no escape was met. */
  datatype Outcome = Done(value: seq<u8>, end: nat, plain: bool) | Failed(at: nat, error: Error)

  function Behind(bytes: seq<u8>, plain: bool, rest: Outcome): Outcome {
    match rest
    case Done(v, e, p) => Done(bytes + v, e, plain && p)
    case Failed(_, _) => rest
  }

  function Decode(t: seq<u8>, i: nat): Outcome
    decreases |t| - i
  {
    match ReadStep(t, i)
    case Close => Done([], i + 1, true)
    case Plain(n) => PlainFits(t, i); Behind(t[i..i + n], true, Decode(t, i + n))
    case Escaped(n, bytes) => Behind(bytes, false, Decode(t, i + n))
    case Bad(error) => Failed(i, error)
  }

  // ---------------------------------------------------------------- writing

  /** What the writer does at a position: copy bytes, write an escape for them, or stop. */
  datatype Piece = Copy(n: nat) | Text(n: nat, out: seq<u8>) | Broken

  /** The letter of a two-character escape in `esc_single_char_table`, or 0. */
  function Letter(c: u8, slash: bool): u8 {
    if c == 0x08 then 0x62
    else if c == 0x09 then 0x74
    else if c == 0x0A then 0x6E
    else if c == 0x0C then 0x66
    else if c == 0x0D then 0x72
    else if c == QUOTE || c == BACKSLASH || (slash && c == SLASH) then c
    else 0
  }

  function Unicode(u: bv16): seq<u8> { [BACKSLASH, 0x75] + Hex4(u) }

  /** `write_str` at one position, with the encode table for `esc` and `slash`. */
  function WriteStep(s: seq<u8>, i: nat, esc: bool, slash: bool): Piece {
    var a, b, c, d := At(s, i), At(s, i + 1), At(s, i + 2), At(s, i + 3);
    if a < 0x80 then WriteAscii(a, slash)
    else if 0xC0 <= a <= 0xDF && Rfc2(a, b) then (if esc then Text(2, Unicode(Unit2(a, b))) else Copy(2))
    else if 0xE0 <= a <= 0xEF && Rfc3(a, b, c) then (if esc then Text(3, Unicode(Unit3(a, b, c))) else Copy(3))
    else if 0xF0 <= a <= 0xF7 && Rfc4(a, b, c, d) then
      (if esc then Text(4, Unicode(High(Point4(a, b, c, d))) + Unicode(Low(Point4(a, b, c, d)))) else Copy(4))
    else Broken
  }

  function WriteAscii(a: u8, slash: bool): Piece
    requires a < 0x80
  {
    if Letter(a, slash) != 0 then Text(1, [BACKSLASH, Letter(a, slash)])
    else if a < 0x20 then Text(1, Unicode(a as bv16))
    else Copy(1)
  }

  /** How the writer goes on at a sequence that is not UTF-8, if it may. */
  function Repair(c: u8, esc: bool): seq<u8> { if esc then Unicode(0xFFFD) else [c] }

  /** Everything between the quotes, from position `i` on. */
  function Encode(s: seq<u8>, i: nat, esc: bool, slash: bool, inv: bool): Option<seq<u8>>
    decreases |s| - i
  {
    if i >= |s| then Some([])
    else
      match WriteStep(s, i, esc, slash)
      case Copy(n) => WriteFits(s, i, esc, slash); Ahead(s[i..i + n], Encode(s, i + n, esc, slash, inv))
      case Text(n, out) => WriteFits(s, i, esc, slash); Ahead(out, Encode(s, i + n, esc, slash, inv))
      case Broken => if inv then Ahead(Repair(s[i], esc), Encode(s, i + 1, esc, slash, inv)) else None
  }

  function Ahead(out: seq<u8>, rest: Option<seq<u8>>): Option<seq<u8>> {
    match rest
    case None => None
    case Some(r) => Some(out + r)
  }

  /** The writer takes exactly one sequence at a time, and stops only where there is none. */
  lemma WriteFits(s: seq<u8>, i: nat, esc: bool, slash: bool)
    requires i < |s|
    ensures WriteStep(s, i, esc, slash).Broken? <==> SeqLen(s, i) == 0
    ensures !WriteStep(s, i, esc, slash).Broken? ==> WriteStep(s, i, esc, slash).n == SeqLen(s, i) && i + SeqLen(s, i) <= |s|
  {
    SeqFits(s, i);
  }

  /** The writer fails on exactly the texts that are not UTF-8. */
  lemma {:induction false} AcceptsUtf8(s: seq<u8>, i: nat, esc: bool, slash: bool)
    ensures Encode(s, i, esc, slash, false).Some? <==> WellFormed(s, i)
    decreases |s| - i
  {
    if i < |s| {
      WriteFits(s, i, esc, slash);
      if SeqLen(s, i) > 0 { AcceptsUtf8(s, i + SeqLen(s, i), esc, slash); }
    }
  }

  /** A buffer of six bytes for each byte of the string is enough. */
  lemma {:induction false} SixTimes(s: seq<u8>, i: nat, esc: bool, slash: bool, inv: bool)
    requires i <= |s|
    ensures Encode(s, i, esc, slash, inv).Some? ==> |Encode(s, i, esc, slash, inv).value| <= 6 * (|s| - i)
    decreases |s| - i
  {
    if i < |s| {
      WriteFits(s, i, esc, slash);
      var p := WriteStep(s, i, esc, slash);
      SixTimes(s, if p.Broken? then i + 1 else i + p.n, esc, slash, inv);
      StepSize(s, i, esc, slash);
    }
  }

  lemma StepSize(s: seq<u8>, i: nat, esc: bool, slash: bool)
    ensures WriteStep(s, i, esc, slash).Text? ==>
              |WriteStep(s, i, esc, slash).out| <= 6 * WriteStep(s, i, esc, slash).n
  {
  }

  // ---------------------------------------------------------------- reading back what was written

  /** `t` reads `part` at `j`. */
  predicate Reads(t: seq<u8>, j: nat, part: seq<u8>) { j + |part| <= |t| && t[j..j + |part|] == part }

  lemma ReadsAt(t: seq<u8>, j: nat, part: seq<u8>, k: nat)
    requires Reads(t, j, part) && k < |part|
    ensures At(t, j + k) == part[k]
  {
    assert t[j..j + |part|][k] == t[j + k];
  }

  lemma ReadsParts(t: seq<u8>, j: nat, a: seq<u8>, b: seq<u8>)
    requires Reads(t, j, a + b)
    ensures Reads(t, j, a) && Reads(t, j + |a|, b)
  {
    assert t[j..j + |a|] == (a + b)[..|a|];
    assert t[j + |a|..j + |a| + |b|] == (a + b)[|a|..];
  }

  /** An escape for a code unit outside the surrogates. */
  lemma UnicodeBack(t: seq<u8>, j: nat, u: bv16)
    requires Reads(t, j, Unicode(u)) && !Surrogate(u)
    ensures ReadStep(t, j) == Escaped(6, Bytes16(u))
  {
    hide Hex4, HexLoad, Surrogate, Bytes16;
    UnicodeHex(t, j, u);
  }

  lemma UnicodeHex(t: seq<u8>, j: nat, u: bv16)
    requires Reads(t, j, Unicode(u))
    ensures At(t, j) == BACKSLASH && At(t, j + 1) == 0x75 && HexAt(t, j + 2) == (true, u)
  {
    var h := Unicode(u);
    ReadsAt(t, j, h, 0);
    ReadsAt(t, j, h, 1);
    ReadsAt(t, j, h, 2);
    ReadsAt(t, j, h, 3);
    ReadsAt(t, j, h, 4);
    ReadsAt(t, j, h, 5);
    HexBack(u);
    hide HexLoad, HexDigit;
  }

  /** A pair of escapes for a code point beyond the first plane. */
  lemma PairEscapeBack(t: seq<u8>, j: nat, hi: bv16, lo: bv16)
    requires Reads(t, j, Unicode(hi) + Unicode(lo))
    requires hi & 0xFC00 == 0xD800 && lo & 0xFC00 == 0xDC00 && Surrogate(hi) && Joined(hi, lo) < 0x200000
    ensures ReadStep(t, j) == Escaped(12, Bytes32(Joined(hi, lo)))
  {
    assert |Unicode(hi)| == 6;
    hide HexLoad, Hex4, Joined, Bytes32, Surrogate;
    ReadsParts(t, j, Unicode(hi), Unicode(lo));
    UnicodeHex(t, j, hi);
    UnicodeHex(t, j + 6, lo);
  }

  /** Whatever piece the writer put out, the reader takes it back as the bytes it stands for. */
  lemma CopyBack(s: seq<u8>, i: nat, esc: bool, slash: bool, t: seq<u8>, j: nat)
    requires i < |s| && WriteStep(s, i, esc, slash).Copy?
    requires var n := WriteStep(s, i, esc, slash).n; i + n <= |s| && Reads(t, j, s[i..i + n])
    ensures ReadStep(t, j) == Plain(WriteStep(s, i, esc, slash).n)
  {
    var n := WriteStep(s, i, esc, slash).n;
    ReadsAt(t, j, s[i..i + n], 0);
    if n > 1 { ReadsAt(t, j, s[i..i + n], 1); }
    if n > 2 { ReadsAt(t, j, s[i..i + n], 2); }
    if n > 3 { ReadsAt(t, j, s[i..i + n], 3); }
  }

  lemma TextBack(s: seq<u8>, i: nat, esc: bool, slash: bool, t: seq<u8>, j: nat)
    requires i < |s| && WriteStep(s, i, esc, slash).Text?
    requires var p := WriteStep(s, i, esc, slash); i + p.n <= |s| && Reads(t, j, p.out)
    ensures var p := WriteStep(s, i, esc, slash); ReadStep(t, j) == Escaped(|p.out|, s[i..i + p.n])
  {
    hide ReadStep;
    var p := WriteStep(s, i, esc, slash);
    var a, b, c, d := At(s, i), At(s, i + 1), At(s, i + 2), At(s, i + 3);
    if a < 0x80 {
      AsciiBack(a, slash, t, j);
    } else if p.n == 2 {
      Unit2Back(a, b);
      UnicodeBack(t, j, Unit2(a, b));
    } else if p.n == 3 {
      Unit3Back(a, b, c);
      UnicodeBack(t, j, Unit3(a, b, c));
    } else {
      Point4Back(a, b, c, d);
      PairEscapeBack(t, j, High(Point4(a, b, c, d)), Low(Point4(a, b, c, d)));
    }
  }

  lemma AsciiBack(a: u8, slash: bool, t: seq<u8>, j: nat)
    requires a < 0x80 && WriteAscii(a, slash).Text? && Reads(t, j, WriteAscii(a, slash).out)
    ensures ReadStep(t, j) == Escaped(|WriteAscii(a, slash).out|, [a])
  {
    if Letter(a, slash) != 0 {
      ReadsAt(t, j, [BACKSLASH, Letter(a, slash)], 0);
      ReadsAt(t, j, [BACKSLASH, Letter(a, slash)], 1);
    } else {
      Unit1Back(a);
      UnicodeBack(t, j, a as bv16);
    }
  }

  lemma EncodeNext(s: seq<u8>, i: nat, esc: bool, slash: bool, inv: bool)
    requires i < |s| && SeqLen(s, i) > 0
    ensures i + SeqLen(s, i) <= |s| && !WriteStep(s, i, esc, slash).Broken? && WriteStep(s, i, esc, slash).n == SeqLen(s, i)
    ensures Encode(s, i, esc, slash, inv) == Ahead(Output(s, i, esc, slash), Encode(s, i + SeqLen(s, i), esc, slash, inv))
  {
    WriteFits(s, i, esc, slash);
  }

  /** What the writer puts out for one sequence. */
  function Output(s: seq<u8>, i: nat, esc: bool, slash: bool): seq<u8> {
    var p := WriteStep(s, i, esc, slash);
    if p.Copy? && i + p.n <= |s| then s[i..i + p.n] else if p.Text? then p.out else []
  }

  lemma DecodeNext(t: seq<u8>, j: nat)
    ensures var r := ReadStep(t, j);
            && (r.Plain? ==> j + r.n <= |t| && Decode(t, j) == Behind(t[j..j + r.n], true, Decode(t, j + r.n)))
            && (r.Escaped? ==> Decode(t, j) == Behind(r.bytes, false, Decode(t, j + r.n)))
            && (r.Close? ==> Decode(t, j) == Done([], j + 1, true))
  {
    if ReadStep(t, j).Plain? { PlainFits(t, j); }
  }

  /** Reading at `j` what was written for `s` from `i` on, up to the closing quote. */
  lemma {:induction false} RoundTripFrom(s: seq<u8>, i: nat, esc: bool, slash: bool, t: seq<u8>, j: nat)
    requires i <= |s| && WellFormed(s, i) && Encode(s, i, esc, slash, false).Some?
    requires Reads(t, j, Encode(s, i, esc, slash, false).value + [QUOTE])
    ensures var n := |Encode(s, i, esc, slash, false).value|;
            Decode(t, j).Done? && Decode(t, j).value == s[i..] && Decode(t, j).end == j + n + 1
    decreases |s| - i
  {
    hide Decode, Encode, ReadStep, WriteStep, Reads, SeqLen, Output;
    DecodeNext(t, j);
    if i == |s| {
      EncodeEnd(s, esc, slash, false);
      QuoteBack(t, j);
    } else {
      var n, out := SeqLen(s, i), Output(s, i, esc, slash);
      EncodeNext(s, i, esc, slash, false);
      var rest := Encode(s, i + n, esc, slash, false).value;
      assert out + rest + [QUOTE] == out + (rest + [QUOTE]);
      ReadsParts(t, j, out, rest + [QUOTE]);
      RoundTripFrom(s, i + n, esc, slash, t, j + |out|);
      OutputBack(s, i, esc, slash, t, j);
      assert s[i..] == s[i..i + n] + s[i + n..];
    }
  }

  lemma EncodeEnd(s: seq<u8>, esc: bool, slash: bool, inv: bool)
    ensures Encode(s, |s|, esc, slash, inv) == Some([])
  {
  }

  lemma QuoteBack(t: seq<u8>, j: nat)
    requires Reads(t, j, [] + [QUOTE])
    ensures ReadStep(t, j) == Close
  {
    ReadsAt(t, j, [] + [QUOTE], 0);
  }

  lemma OutputBack(s: seq<u8>, i: nat, esc: bool, slash: bool, t: seq<u8>, j: nat)
    requires i < |s| && SeqLen(s, i) > 0 && Reads(t, j, Output(s, i, esc, slash))
    ensures i + SeqLen(s, i) <= |s|
    ensures var n, m := SeqLen(s, i), |Output(s, i, esc, slash)|;
            ReadStep(t, j) == Escaped(m, s[i..i + n])
            || (ReadStep(t, j) == Plain(m) && m == n && j + m <= |t| && t[j..j + m] == s[i..i + n])
  {
    hide ReadStep;
    WriteFits(s, i, esc, slash);
    hide WriteStep, SeqLen;
    StepBack(s, i, esc, slash, t, j);
  }

  lemma StepBack(s: seq<u8>, i: nat, esc: bool, slash: bool, t: seq<u8>, j: nat)
    requires i < |s| && !WriteStep(s, i, esc, slash).Broken?
    requires var p := WriteStep(s, i, esc, slash);
             i + p.n <= |s| && Reads(t, j, if p.Copy? then s[i..i + p.n] else p.out)
    ensures var p := WriteStep(s, i, esc, slash);
            ReadStep(t, j) == (if p.Copy? then Plain(p.n) else Escaped(|p.out|, s[i..i + p.n]))
  {
    hide ReadStep, WriteStep;
    if WriteStep(s, i, esc, slash).Copy? { CopyBack(s, i, esc, slash, t, j); } else { TextBack(s, i, esc, slash, t, j); }
  }

  /** The round trip: anywhere in a text, whatever follows, with any choice of escapes. */
  lemma RoundTrip(s: seq<u8>, esc: bool, slash: bool, before: seq<u8>, after: seq<u8>)
    requires WellFormed(s, 0)
    ensures var body := Encode(s, 0, esc, slash, false);
            && body.Some?
            && var r := Decode(before + [QUOTE] + body.value + [QUOTE] + after, |before| + 1);
               r.Done? && r.value == s && r.end == |before| + |body.value| + 2
  {
    AcceptsUtf8(s, 0, esc, slash);
    var body := Encode(s, 0, esc, slash, false).value;
    var t := before + [QUOTE] + body + [QUOTE] + after;
    assert t[|before| + 1..|before| + 1 + |body| + 1] == body + [QUOTE];
    RoundTripFrom(s, 0, esc, slash, t, |before| + 1);
    assert s[0..] == s;
  }

  // ---------------------------------------------------------------- strings without escapes

  lemma ShiftAt(a: seq<u8>, b: seq<u8>, k: nat)
    ensures At(a + b, |a| + k) == At(b, k)
  {
  }

  lemma ShiftStep(a: seq<u8>, b: seq<u8>, k: nat, esc: bool, slash: bool)
    ensures WriteStep(a + b, |a| + k, esc, slash) == WriteStep(b, k, esc, slash) && SeqLen(a + b, |a| + k) == SeqLen(b, k)
  {
    ShiftAt(a, b, k);
    ShiftAt(a, b, k + 1);
    ShiftAt(a, b, k + 2);
    ShiftAt(a, b, k + 3);
    hide At;
  }

  lemma ShiftOutput(a: seq<u8>, b: seq<u8>, k: nat, esc: bool, slash: bool)
    requires k < |b|
    ensures Output(a + b, |a| + k, esc, slash) == Output(b, k, esc, slash)
  {
    hide WriteStep, SeqLen;
    ShiftStep(a, b, k, esc, slash);
    var p := WriteStep(b, k, esc, slash);
    if p.Copy? && k + p.n <= |b| { assert (a + b)[|a| + k..|a| + k + p.n] == b[k..k + p.n]; }
  }

  lemma WellFormedNext(t: seq<u8>, i: nat)
    requires i < |t|
    ensures WellFormed(t, i) <==> SeqLen(t, i) > 0 && WellFormed(t, i + SeqLen(t, i))
  {
  }

  lemma {:induction false} ShiftWellFormed(a: seq<u8>, b: seq<u8>, k: nat)
    requires k <= |b| && WellFormed(b, k)
    ensures WellFormed(a + b, |a| + k)
    decreases |b| - k
  {
    if k < |b| {
      hide SeqLen;
      ShiftStep(a, b, k, false, false);
      SeqFits(b, k);
      ShiftWellFormed(a, b, k + SeqLen(b, k));
    }
  }

  lemma ShiftNext(a: seq<u8>, b: seq<u8>, k: nat, esc: bool, slash: bool)
    requires k < |b| && WellFormed(b, k)
    ensures var n, out := SeqLen(b, k), Output(b, k, esc, slash);
            && k + n <= |b|
            && Encode(b, k, esc, slash, false) == Ahead(out, Encode(b, k + n, esc, slash, false))
            && Encode(a + b, |a| + k, esc, slash, false) == Ahead(out, Encode(a + b, |a| + (k + n), esc, slash, false))
  {
    hide Encode, WriteStep, SeqLen, Ahead, Output, At;
    EncodeNext(b, k, esc, slash, false);
    ShiftStep(a, b, k, esc, slash);
    ShiftOutput(a, b, k, esc, slash);
    EncodeNext(a + b, |a| + k, esc, slash, false);
  }

  lemma {:induction false} ShiftEncode(a: seq<u8>, b: seq<u8>, k: nat, esc: bool, slash: bool)
    requires k <= |b| && WellFormed(b, k)
    ensures Encode(a + b, |a| + k, esc, slash, false) == Encode(b, k, esc, slash, false)
    decreases |b| - k
  {
    hide Encode, WriteStep, SeqLen, WellFormed, Ahead, Output, At;
    if k < |b| {
      ShiftNext(a, b, k, esc, slash);
      WellFormedNext(b, k);
      ShiftEncode(a, b, k + SeqLen(b, k), esc, slash);
    } else {
      EncodeEnd(a + b, esc, slash, false);
      EncodeEnd(b, esc, slash, false);
    }
  }

  /** A string that the reader found no escape in is its own text, and the writer with the
      copy table writes it unchanged: what `write_str_noesc` writes without looking. */
  lemma {:induction false} PlainIsOwnText(t: seq<u8>, i: nat)
    requires Decode(t, i).Done? && Decode(t, i).plain
    ensures i < Decode(t, i).end <= |t| && Decode(t, i).value == t[i..Decode(t, i).end - 1]
    ensures WellFormed(Decode(t, i).value, 0)
    ensures Encode(Decode(t, i).value, 0, false, false, false) == Some(Decode(t, i).value)
    decreases |t| - i
  {
    hide Decode, Encode, ReadStep, WriteStep, WellFormed;
    DecodeNext(t, i);
    DecodeEnds(t, i);
    match ReadStep(t, i)
    case Close =>
      CloseFits(t, i);
      EncodeEnd([], false, false, false);
    case Plain(n) =>
      PlainPositive(t, i);
      PlainIsOwnText(t, i + n);
      PlainWritten(t, i, Decode(t, i + n).value);
    case _ =>
  }

  lemma DecodeEnds(t: seq<u8>, i: nat)
    requires Decode(t, i).Done? && Decode(t, i).plain
    ensures (ReadStep(t, i).Close? || ReadStep(t, i).Plain?) && WellFormed([], 0)
  {
    hide ReadStep;
  }

  lemma CloseFits(t: seq<u8>, i: nat)
    requires ReadStep(t, i).Close?
    ensures i < |t|
  {
  }

  lemma PlainPositive(t: seq<u8>, i: nat)
    requires ReadStep(t, i).Plain?
    ensures 0 < ReadStep(t, i).n && i + ReadStep(t, i).n <= |t|
  {
    PlainFits(t, i);
  }

  lemma PlainCopied(t: seq<u8>, i: nat, v: seq<u8>)
    requires ReadStep(t, i).Plain? && forall k :: 0 <= k < ReadStep(t, i).n ==> At(v, k) == At(t, i + k)
    ensures SeqLen(v, 0) == ReadStep(t, i).n && WriteStep(v, 0, false, false) == Copy(ReadStep(t, i).n)
  {
    hide At;
    var n := ReadStep(t, i).n;
    assert n > 0 ==> At(v, 0) == At(t, i + 0);
    assert n > 1 ==> At(v, 1) == At(t, i + 1);
    assert n > 2 ==> At(v, 2) == At(t, i + 2);
    assert n > 3 ==> At(v, 3) == At(t, i + 3);
  }

  lemma PlainWritten(t: seq<u8>, i: nat, rest: seq<u8>)
    requires ReadStep(t, i).Plain? && i + ReadStep(t, i).n <= |t|
    requires WellFormed(rest, 0) && Encode(rest, 0, false, false, false) == Some(rest)
    ensures var v := t[i..i + ReadStep(t, i).n] + rest; WellFormed(v, 0) && Encode(v, 0, false, false, false) == Some(v)
  {
    hide ReadStep, WriteStep, SeqLen, Encode, WellFormed;
    PlainPositive(t, i);
    var n := ReadStep(t, i).n;
    var p := t[i..i + n];
    var v := p + rest;
    assert forall k :: 0 <= k < n ==> At(v, k) == At(t, i + k);
    PlainCopied(t, i, v);
    ShiftEncode(p, rest, 0, false, false);
    ShiftWellFormed(p, rest, 0);
    WellFormedNext(v, 0);
    EncodeNext(v, 0, false, false, false);
    assert v[0..n] == p;
  }
}
