/** `read_str_opt` with the default flags: a string is decoded inside the buffer that holds
    it. The buffer goes on for four zero bytes after the end of the input. */
module StringReader {
  import opened Options
  import opened Utf8
  import opened JsonStrings
  import opened StringCodec

  ghost predicate Padded(o: seq<u8>, eof: nat) { eof + 4 <= |o| && forall i :: eof <= i < eof + 4 ==> o[i] == 0 }

  /** Everything from `src` on is as it was. */
  ghost predicate SameFrom(o: seq<u8>, b: seq<u8>, src: nat) {
    |b| == |o| && forall i :: src <= i < |o| ==> b[i] == o[i]
  }

  lemma LoadAt(o: seq<u8>, b: seq<u8>, src: nat, eof: nat, i: nat)
    requires Padded(o, eof) && SameFrom(o, b, src) && src <= i < eof + 4
    ensures b[i] == At(o[..eof], i)
  {
  }

  /** Reading from `hdr` comes down to `value` and what reading from `src` gives. */
  ghost predicate Sofar(t: seq<u8>, hdr: nat, src: nat, value: seq<u8>, plain: bool) {
    Decode(t, hdr) == Behind(value, plain, Decode(t, src))
  }

  lemma BehindTwice(a: seq<u8>, p: bool, b: seq<u8>, q: bool, rest: Outcome)
    ensures Behind(a, p, Behind(b, q, rest)) == Behind(a + b, p && q, rest)
  {
    if rest.Done? { assert a + (b + rest.value) == a + b + rest.value; }
  }

  lemma SofarStarts(t: seq<u8>, hdr: nat)
    ensures Sofar(t, hdr, hdr, [], true)
  {
    hide Decode;
    if Decode(t, hdr).Done? { assert [] + Decode(t, hdr).value == Decode(t, hdr).value; }
  }

  lemma SofarPlain(t: seq<u8>, hdr: nat, src: nat, value: seq<u8>, plain: bool)
    requires Sofar(t, hdr, src, value, plain) && ReadStep(t, src).Plain?
    ensures var n := ReadStep(t, src).n;
            0 < n && src + n <= |t| && Sofar(t, hdr, src + n, value + t[src..src + n], plain)
  {
    hide Decode, ReadStep, Behind;
    PlainPositive(t, src);
    DecodeNext(t, src);
    var n := ReadStep(t, src).n;
    BehindTwice(value, plain, t[src..src + n], true, Decode(t, src + n));
  }

  lemma SofarEscaped(t: seq<u8>, hdr: nat, src: nat, value: seq<u8>, plain: bool)
    requires Sofar(t, hdr, src, value, plain) && ReadStep(t, src).Escaped?
    ensures var r := ReadStep(t, src); Sofar(t, hdr, src + r.n, value + r.bytes, false)
  {
    hide Decode, ReadStep, Behind;
    DecodeNext(t, src);
    var r := ReadStep(t, src);
    BehindTwice(value, plain, r.bytes, false, Decode(t, src + r.n));
  }

  // ---------------------------------------------------------------- looking at the buffer

  function Word(t: seq<u8>, i: nat): bv32 { Load(At(t, i), At(t, i + 1), At(t, i + 2), At(t, i + 3)) }

  method LoadWord(buf: array<u8>, ghost o: seq<u8>, src: nat, eof: nat) returns (uni: bv32)
    requires Padded(o, eof) && SameFrom(o, buf[..], src) && src <= eof
    ensures uni == Word(o[..eof], src)
  {
    LoadAt(o, buf[..], src, eof, src);
    LoadAt(o, buf[..], src, eof, src + 1);
    LoadAt(o, buf[..], src, eof, src + 2);
    LoadAt(o, buf[..], src, eof, src + 3);
    uni := Load(buf[src], buf[src + 1], buf[src + 2], buf[src + 3]);
  }

  /** `is_utf8_seq1` to `is_utf8_seq4` */
  predicate IsSeq(uni: bv32, k: nat)
    requires 1 <= k <= 4
  {
    match k
    case 1 => IsSeq1(uni)
    case 2 => IsSeq2(uni)
    case 3 => IsSeq3(uni)
    case 4 => IsSeq4(uni)
  }

  /** What the word tests say about a position. */
  lemma WordTests(t: seq<u8>, i: nat)
    ensures var uni := Word(t, i);
            && (IsSeq(uni, 1) <==> At(t, i) < 0x80)
            && (IsSeq(uni, 2) ==> ReadStep(t, i) == Plain(2)) && (IsSeq(uni, 3) ==> ReadStep(t, i) == Plain(3))
            && (IsSeq(uni, 4) ==> ReadStep(t, i) == Plain(4))
            && (!IsSeq(uni, 1) && !IsSeq(uni, 2) && !IsSeq(uni, 3) && !IsSeq(uni, 4) ==> ReadStep(t, i) == Bad(InvalidUtf8))
  {
    var a, b, c, d := At(t, i), At(t, i + 1), At(t, i + 2), At(t, i + 3);
    Seq1Is(a, b, c, d);
    Seq2Is(a, b, c, d);
    Seq3Is(a, b, c, d);
    Seq4Is(a, b, c, d);
    hide IsSeq1, IsSeq2, IsSeq3, IsSeq4, Load, At;
  }

  // ---------------------------------------------------------------- before the first escape

  /** The text from `hdr` to `src` stands for itself. */
  ghost predicate Skipped(t: seq<u8>, hdr: nat, src: nat) { hdr <= src <= |t| && Sofar(t, hdr, src, t[hdr..src], true) }

  lemma SkippedNext(t: seq<u8>, hdr: nat, src: nat)
    requires Skipped(t, hdr, src) && ReadStep(t, src).Plain?
    ensures src + ReadStep(t, src).n <= |t| && Skipped(t, hdr, src + ReadStep(t, src).n)
  {
    hide Sofar, ReadStep;
    SofarPlain(t, hdr, src, t[hdr..src], true);
    var n := ReadStep(t, src).n;
    assert t[hdr..src] + t[src..src + n] == t[hdr..src + n];
  }

  /** One of the loops at the label `skip_utf8`: sequences of `k` bytes. */
  method SkipRun(buf: array<u8>, ghost t: seq<u8>, hdr: nat, src0: nat, eof: nat, k: nat, uni0: bv32) returns (src: nat, uni: bv32)
    requires Padded(buf[..], eof) && t == buf[..][..eof] && src0 <= eof && Skipped(t, hdr, src0)
    requires uni0 == Word(t, src0) && 2 <= k <= 4
    ensures src0 <= src <= eof && Skipped(t, hdr, src) && uni == Word(t, src) && !IsSeq(uni, k)
    ensures src == src0 ==> uni == uni0
  {
    src, uni := src0, uni0;
    hide Skipped, ReadStep, IsSeq, Word;
    while IsSeq(uni, k)
      invariant src0 <= src <= eof && Skipped(t, hdr, src) && uni == Word(t, src)
      decreases eof - src
    {
      WordTests(t, src);
      SkippedNext(t, hdr, src);
      src := src + k;
      uni := LoadWord(buf, buf[..], src, eof);
    }
  }

  /** The label `skip_utf8`: sequences of three bytes, then of two, then of four. */
  method SkipUtf8(buf: array<u8>, hdr: nat, pos: nat, eof: nat) returns (src: nat, ok: bool)
    requires Padded(buf[..], eof) && pos < eof && Skipped(buf[..eof], hdr, pos) && buf[pos] >= 0x80
    ensures pos <= src <= eof && Skipped(buf[..eof], hdr, src)
    ensures if ok then src > pos else src == pos && ReadStep(buf[..eof], pos) == Bad(InvalidUtf8)
  {
    ghost var t := buf[..][..eof];
    assert t == buf[..eof];
    WordTests(t, pos);
    hide Skipped, ReadStep, IsSeq, Word;
    src := pos;
    var uni := LoadWord(buf, buf[..], src, eof);
    src, uni := SkipRun(buf, t, hdr, src, eof, 3, uni);
    if IsSeq(uni, 1) { return src, true; }
    src, uni := SkipRun(buf, t, hdr, src, eof, 2, uni);
    src, uni := SkipRun(buf, t, hdr, src, eof, 4, uni);
    ok := src != pos;
  }

  /** The labels `skip_ascii` and `skip_utf8`, up to a quote, an escape or something wrong. */
  method SkipText(buf: array<u8>, hdr: nat, eof: nat) returns (src: nat, ok: bool)
    requires Padded(buf[..], eof) && hdr <= eof
    ensures hdr <= src <= eof && Skipped(buf[..eof], hdr, src)
    ensures if ok then buf[src] < 0x80 && !Skip(buf[src]) else ReadStep(buf[..eof], src) == Bad(InvalidUtf8)
  {
    ghost var t := buf[..eof];
    SofarStarts(t, hdr);
    assert t[hdr..hdr] == [];
    src, ok := hdr, true;
    hide Sofar, ReadStep;
    while true
      invariant hdr <= src <= eof && Skipped(t, hdr, src) && t == buf[..eof]
      decreases eof - src
    {
      LoadAt(buf[..], buf[..], 0, eof, src);
      if Skip(buf[src]) {
        SkipStep(t, src);
        SkippedNext(t, hdr, src);
        src := src + 1;
      } else if buf[src] < 0x80 {
        return;
      } else {
        src, ok := SkipUtf8(buf, hdr, src, eof);
        if !ok { return; }
      }
    }
  }

  lemma SkipStep(t: seq<u8>, i: nat)
    requires Skip(At(t, i))
    ensures ReadStep(t, i) == Plain(1) && i < |t|
  {
  }

  // ---------------------------------------------------------------- from the first escape on

  /** The decoded part ends at `dst`, never beyond the place `src` that is read next. */
  ghost predicate Copying(o: seq<u8>, b: seq<u8>, hdr: nat, src: nat, dst: nat, eof: nat, plain: bool) {
    && hdr <= dst <= src <= eof && Padded(o, eof) && SameFrom(o, b, src) && b[..hdr] == o[..hdr]
    && Sofar(o[..eof], hdr, src, b[hdr..dst], plain)
  }

  /** Bytes written at `dst`, of which the first `m` count, after `n` bytes were read. */
  lemma CopyingNext(o: seq<u8>, b: seq<u8>, b': seq<u8>, hdr: nat, src: nat, dst: nat, eof: nat, plain: bool,
                    n: nat, m: nat, w: seq<u8>)
    requires Copying(o, b, hdr, src, dst, eof, plain)
    requires dst + |w| <= src + n <= eof && m <= |w| && b' == b[..dst] + w + b[dst + |w|..]
    ensures SameFrom(o, b', src + n) && b'[..hdr] == o[..hdr] && hdr <= dst + m <= src + n
    ensures b'[hdr..dst + m] == b[hdr..dst] + w[..m]
  {
    hide Sofar;
    assert forall i :: dst + |w| <= i < |b| ==> b'[i] == b[i];
    assert b'[..hdr] == b[..hdr];
  }

  lemma CopyingPlain(o: seq<u8>, b: seq<u8>, b': seq<u8>, hdr: nat, src: nat, dst: nat, eof: nat, plain: bool,
                     n: nat, w: seq<u8>)
    requires Copying(o, b, hdr, src, dst, eof, plain) && ReadStep(o[..eof], src) == Plain(n)
    requires dst + |w| <= src + n <= eof && b' == b[..dst] + w + b[dst + |w|..]
    requires n <= |w| && w[..n] == o[src..src + n]
    ensures Copying(o, b', hdr, src + n, dst + n, eof, plain)
  {
    hide Sofar, ReadStep;
    CopyingNext(o, b, b', hdr, src, dst, eof, plain, n, n, w);
    SofarPlain(o[..eof], hdr, src, b[hdr..dst], plain);
    assert o[..eof][src..src + n] == o[src..src + n];
  }

  lemma CopyingEscaped(o: seq<u8>, b: seq<u8>, b': seq<u8>, hdr: nat, src: nat, dst: nat, eof: nat, plain: bool,
                       n: nat, w: seq<u8>)
    requires Copying(o, b, hdr, src, dst, eof, plain) && ReadStep(o[..eof], src) == Escaped(n, w)
    requires dst + |w| <= src + n <= eof && b' == b[..dst] + w + b[dst + |w|..]
    ensures Copying(o, b', hdr, src + n, dst + |w|, eof, false)
  {
    hide Sofar, ReadStep;
    CopyingNext(o, b, b', hdr, src, dst, eof, plain, n, |w|, w);
    SofarEscaped(o[..eof], hdr, src, b[hdr..dst], plain);
    assert w[..|w|] == w;
  }

  /** An escape is longer than what it stands for, and lies inside the input. */
  lemma EscapeShrinks(t: seq<u8>, i: nat)
    requires ReadStep(t, i).Escaped?
    ensures |ReadStep(t, i).bytes| < ReadStep(t, i).n && i + ReadStep(t, i).n <= |t|
  {
  }

  /** One sequence of `k` bytes is moved down; for three bytes four are written. */
  method CopySeq(buf: array<u8>, ghost o: seq<u8>, hdr: nat, src: nat, dst: nat, eof: nat, ghost plain: bool, k: nat)
    requires Copying(o, buf[..], hdr, src, dst, eof, plain) && dst < src && 1 <= k <= 4
    requires ReadStep(o[..eof], src) == Plain(k)
    modifies buf
    ensures Copying(o, buf[..], hdr, src + k, dst + k, eof, plain)
  {
    hide ReadStep, Sofar;
    PlainPositive(o[..eof], src);
    var w := buf[src..src + (if k == 3 then 4 else k)];
    ghost var b := buf[..];
    assert b[..][src..src + k] == o[src..src + k];
    assert w[..k] == b[src..src + k];
    Put(buf, dst, w);
    CopyingPlain(o, b, buf[..], hdr, src, dst, eof, plain, k, w);
  }

  /** One of the loops at the label `copy_utf8`. */
  method CopyRun(buf: array<u8>, ghost o: seq<u8>, hdr: nat, src0: nat, dst0: nat, eof: nat, ghost plain: bool,
                 k: nat, uni0: bv32) returns (src: nat, dst: nat, uni: bv32)
    requires Copying(o, buf[..], hdr, src0, dst0, eof, plain) && dst0 < src0 && 2 <= k <= 4 && uni0 == Word(o[..eof], src0)
    modifies buf
    ensures Copying(o, buf[..], hdr, src, dst, eof, plain) && dst < src && src0 <= src
    ensures uni == Word(o[..eof], src) && !IsSeq(uni, k) && (src == src0 ==> dst == dst0 && uni == uni0)
  {
    src, dst, uni := src0, dst0, uni0;
    hide ReadStep, IsSeq, Word, Sofar;
    while IsSeq(uni, k)
      invariant Copying(o, buf[..], hdr, src, dst, eof, plain) && dst < src && src0 <= src && uni == Word(o[..eof], src)
      invariant src == src0 ==> dst == dst0 && uni == uni0
      decreases eof - src
    {
      WordTests(o[..eof], src);
      CopySeq(buf, o, hdr, src, dst, eof, plain, k);
      src, dst := src + k, dst + k;
      uni := LoadWord(buf, o, src, eof);
    }
  }

  /** The label `copy_utf8`. */
  method CopyUtf8(buf: array<u8>, ghost o: seq<u8>, hdr: nat, pos: nat, dst0: nat, eof: nat, ghost plain: bool)
    returns (src: nat, dst: nat, ok: bool)
    requires Copying(o, buf[..], hdr, pos, dst0, eof, plain) && dst0 < pos && At(o[..eof], pos) >= 0x80
    modifies buf
    ensures Copying(o, buf[..], hdr, src, dst, eof, plain) && dst < src
    ensures if ok then src > pos else src == pos && ReadStep(o[..eof], pos) == Bad(InvalidUtf8)
  {
    ghost var t := o[..eof];
    WordTests(t, pos);
    hide ReadStep, IsSeq, Word, Copying;
    var uni := LoadFrom(buf, o, hdr, pos, dst0, eof, plain);
    src, dst, uni := CopyRun(buf, o, hdr, pos, dst0, eof, plain, 3, uni);
    if IsSeq(uni, 1) { return src, dst, true; }
    src, dst, uni := CopyRun(buf, o, hdr, src, dst, eof, plain, 2, uni);
    src, dst, uni := CopyRun(buf, o, hdr, src, dst, eof, plain, 4, uni);
    ok := src != pos;
  }

  method LoadFrom(buf: array<u8>, ghost o: seq<u8>, hdr: nat, src: nat, ghost dst: nat, eof: nat, ghost plain: bool) returns (uni: bv32)
    requires Copying(o, buf[..], hdr, src, dst, eof, plain)
    ensures uni == Word(o[..eof], src)
  {
    uni := LoadWord(buf, o, src, eof);
  }

  /** The labels `copy_ascii` and `copy_utf8`, up to a quote, an escape or something wrong. */
  method CopyText(buf: array<u8>, ghost o: seq<u8>, hdr: nat, src0: nat, dst0: nat, eof: nat, ghost plain: bool)
    returns (src: nat, dst: nat, ok: bool)
    requires Copying(o, buf[..], hdr, src0, dst0, eof, plain) && dst0 < src0
    modifies buf
    ensures Copying(o, buf[..], hdr, src, dst, eof, plain) && dst < src && src0 <= src
    ensures if ok then At(o[..eof], src) < 0x80 && !Skip(At(o[..eof], src)) else ReadStep(o[..eof], src) == Bad(InvalidUtf8)
  {
    src, dst, ok := src0, dst0, true;
    hide ReadStep, Sofar;
    while true
      invariant Copying(o, buf[..], hdr, src, dst, eof, plain) && dst < src && src0 <= src
      decreases eof - src
    {
      LoadAt(o, buf[..], src, eof, src);
      if Skip(buf[src]) {
        SkipStep(o[..eof], src);
        CopySeq(buf, o, hdr, src, dst, eof, plain, 1);
        src, dst := src + 1, dst + 1;
      } else if buf[src] < 0x80 {
        return;
      } else {
        src, dst, ok := CopyUtf8(buf, o, hdr, src, dst, eof, plain);
        if !ok { return; }
      }
    }
  }

  // ---------------------------------------------------------------- escapes

  method LoadHex(buf: array<u8>, ghost o: seq<u8>, src: nat, eof: nat, i: nat) returns (ok: bool, u: bv16)
    requires Padded(o, eof) && SameFrom(o, buf[..], src) && src <= i <= eof
    ensures (ok, u) == HexAt(o[..eof], i)
    ensures ok ==> i + 4 <= eof
  {
    LoadAt(o, buf[..], src, eof, i);
    LoadAt(o, buf[..], src, eof, i + 1);
    LoadAt(o, buf[..], src, eof, i + 2);
    LoadAt(o, buf[..], src, eof, i + 3);
    var r := HexLoad(buf[i], buf[i + 1], buf[i + 2], buf[i + 3]);
    HexNonzero(buf[i], buf[i + 1], buf[i + 2], buf[i + 3]);
    hide HexLoad;
    ok, u := r.0, r.1;
  }

  lemma HexNonzero(a: u8, b: u8, c: u8, d: u8)
    ensures HexLoad(a, b, c, d).0 ==> a != 0 && b != 0 && c != 0 && d != 0
  {
  }

  /** `read_uni_esc`, which reads everything before it writes anything. */
  method UnicodeAt(buf: array<u8>, ghost o: seq<u8>, src: nat, eof: nat) returns (st: Step)
    requires Padded(o, eof) && SameFrom(o, buf[..], src) && src + 2 <= eof
    ensures st == ReadUnicode(o[..eof], src)
  {
    hide HexLoad, Surrogate, Bytes16, Bytes32, Joined;
    var ok, hi := LoadHex(buf, o, src, eof, src + 2);
    if !ok { return Bad(InvalidEscape); }
    if !Surrogate(hi) { return Escaped(6, Bytes16(hi)); }
    if hi & 0xFC00 != 0xD800 { return Bad(InvalidHighSurrogate); }
    LoadAt(o, buf[..], src, eof, src + 6);
    LoadAt(o, buf[..], src, eof, src + 7);
    if !(buf[src + 6] == BACKSLASH && buf[src + 7] == 0x75) { return Bad(NoLowSurrogate); }
    var lo;
    ok, lo := LoadHex(buf, o, src, eof, src + 8);
    if !ok { return Bad(InvalidLowEscape); }
    if lo & 0xFC00 != 0xDC00 { return Bad(InvalidLowSurrogate); }
    JoinedRange(hi, lo);
    st := Escaped(12, Bytes32(Joined(hi, lo)));
  }

  /** The `switch` at the label `copy_escape`. */
  method EscapeAt(buf: array<u8>, ghost o: seq<u8>, src: nat, eof: nat) returns (st: Step)
    requires Padded(o, eof) && SameFrom(o, buf[..], src) && src < eof && At(o[..eof], src) == BACKSLASH
    ensures st == ReadStep(o[..eof], src)
  {
    LoadAt(o, buf[..], src, eof, src + 1);
    hide ReadUnicode;
    var c := buf[src + 1];
    if c == QUOTE || c == BACKSLASH || c == SLASH { return Escaped(2, [c]); }
    if c == 0x62 { return Escaped(2, [0x08]); }
    if c == 0x66 { return Escaped(2, [0x0C]); }
    if c == 0x6E { return Escaped(2, [0x0A]); }
    if c == 0x72 { return Escaped(2, [0x0D]); }
    if c == 0x74 { return Escaped(2, [0x09]); }
    if c != 0x75 { return Bad(InvalidEscape); }
    st := UnicodeAt(buf, o, src, eof);
  }

  // ---------------------------------------------------------------- the whole string

  /** Where the decoded string stands in the buffer, or where reading stopped. */
  datatype Reading = Value(at: nat, len: nat, end: nat, noesc: bool) | Error(at: nat, error: JsonStrings.Error)

  /** What the buffer holds after a string was read from `hdr` on. */
  ghost predicate Result(o: seq<u8>, b: seq<u8>, hdr: nat, eof: nat, r: Reading) {
    && |b| == |o| && hdr <= eof <= |o| && b[..hdr] == o[..hdr]
    && match Decode(o[..eof], hdr)
       case Done(v, e, plain) =>
         && r == Value(hdr, |v|, e, plain) && hdr + |v| < e <= eof
         && b[hdr..hdr + |v|] == v && b[hdr + |v|] == 0 && b[e..] == o[e..]
       case Failed(at, error) =>
         r == Error(at, error) && at <= eof && b[at..] == o[at..]
  }

  lemma FailResult(o: seq<u8>, b: seq<u8>, hdr: nat, src: nat, dst: nat, eof: nat, plain: bool, error: JsonStrings.Error)
    requires Copying(o, b, hdr, src, dst, eof, plain) && ReadStep(o[..eof], src) == Bad(error)
    ensures Result(o, b, hdr, eof, Error(src, error))
  {
    assert Decode(o[..eof], src) == Failed(src, error);
    hide Decode, ReadStep;
  }

  lemma CloseResult(o: seq<u8>, b: seq<u8>, hdr: nat, src: nat, dst: nat, eof: nat, plain: bool)
    requires Copying(o, b, hdr, src, dst, eof, plain) && ReadStep(o[..eof], src) == Close
    ensures src < eof && Result(o, b[dst := 0], hdr, eof, Value(hdr, dst - hdr, src + 1, plain))
  {
    CloseFits(o[..eof], src);
    assert Decode(o[..eof], src) == Done([], src + 1, true);
    hide Decode, ReadStep;
    assert b[hdr..dst] + [] == b[hdr..dst];
    assert b[dst := 0][hdr..dst] == b[hdr..dst];
  }

  lemma AsciiSteps(t: seq<u8>, i: nat)
    requires At(t, i) < 0x80 && !Skip(At(t, i))
    ensures At(t, i) == QUOTE ==> ReadStep(t, i) == Close
    ensures At(t, i) != QUOTE && At(t, i) != BACKSLASH ==> ReadStep(t, i) == Bad(ControlCharacter)
    ensures At(t, i) == BACKSLASH ==> i < |t|
  {
  }

  /** The label `copy_escape`, with a backslash at `src`. */
  method CopyEscape(buf: array<u8>, ghost o: seq<u8>, hdr: nat, src: nat, dst: nat, eof: nat, ghost plain: bool)
    returns (src': nat, dst': nat, bad: bool, error: JsonStrings.Error)
    requires Copying(o, buf[..], hdr, src, dst, eof, plain) && src < eof && At(o[..eof], src) == BACKSLASH
    modifies buf
    ensures bad ==> buf[..] == old(buf[..]) && ReadStep(o[..eof], src) == Bad(error)
    ensures !bad ==> Copying(o, buf[..], hdr, src', dst', eof, false) && dst' < src' && src < src'
  {
    hide ReadStep, Sofar;
    src', dst', bad, error := src, dst, true, InvalidEscape;
    var st := EscapeAt(buf, o, src, eof);
    EscapeOrBad(o[..eof], src);
    match st
    case Bad(e) => error := e;
    case Escaped(n, bytes) =>
      EscapeShrinks(o[..eof], src);
      ghost var b := buf[..];
      Put(buf, dst, bytes);
      CopyingEscaped(o, b, buf[..], hdr, src, dst, eof, plain, n, bytes);
      src', dst', bad := src + n, dst + |bytes|, false;
  }

  lemma EscapeOrBad(t: seq<u8>, i: nat)
    requires At(t, i) == BACKSLASH
    ensures ReadStep(t, i).Escaped? || ReadStep(t, i).Bad?
  {
  }

  /** The labels from `copy_escape` on. */
  method CopyRest(buf: array<u8>, ghost o: seq<u8>, hdr: nat, src0: nat, eof: nat) returns (r: Reading)
    requires Copying(o, buf[..], hdr, src0, src0, eof, true)
    requires At(o[..eof], src0) < 0x80 && !Skip(At(o[..eof], src0)) && At(o[..eof], src0) != QUOTE
    modifies buf
    ensures Result(o, buf[..], hdr, eof, r)
  {
    var src: nat, dst: nat := src0, src0;
    ghost var plain, t := true, o[..eof];
    hide ReadStep, Sofar, Result;
    while true
      invariant Copying(o, buf[..], hdr, src, dst, eof, plain) && At(t, src) < 0x80 && !Skip(At(t, src))
      invariant if plain then At(t, src) != QUOTE else dst < src
      decreases eof - src
    {
      LoadAt(o, buf[..], src, eof, src);
      AsciiSteps(t, src);
      if buf[src] == QUOTE {
        CloseResult(o, buf[..], hdr, src, dst, eof, plain);
        ghost var b := buf[..];
        buf[dst] := 0;
        assert buf[..] == b[dst := 0];
        return Value(hdr, dst - hdr, src + 1, false);
      }
      if buf[src] != BACKSLASH {
        FailResult(o, buf[..], hdr, src, dst, eof, plain, ControlCharacter);
        return Error(src, ControlCharacter);
      }
      var src', dst', bad, error := CopyEscape(buf, o, hdr, src, dst, eof, plain);
      if bad {
        FailResult(o, buf[..], hdr, src, dst, eof, plain, error);
        return Error(src, error);
      }
      var ok;
      plain := false;
      src, dst, ok := CopyText(buf, o, hdr, src', dst', eof, plain);
      if !ok {
        FailResult(o, buf[..], hdr, src, dst, eof, plain, InvalidUtf8);
        return Error(src, InvalidUtf8);
      }
    }
  }

  /** `read_str_opt`: the string whose opening quote stands at `ptr`. */
  method ReadStr(buf: array<u8>, ptr: nat, eof: nat) returns (r: Reading)
    requires ptr < eof && Padded(buf[..], eof)
    modifies buf
    ensures Result(old(buf[..]), buf[..], ptr + 1, eof, r)
  {
    var hdr := ptr + 1;
    ghost var o := buf[..];
    var src, ok := SkipText(buf, hdr, eof);
    assert o[..eof] == buf[..eof];
    SkippedCopying(o, hdr, src, eof);
    LoadAt(o, o, src, eof, src);
    hide ReadStep, Sofar, Result;
    if !ok {
      FailResult(o, o, hdr, src, src, eof, true, InvalidUtf8);
      return Error(src, InvalidUtf8);
    }
    AsciiSteps(o[..eof], src);
    if buf[src] == QUOTE {
      CloseResult(o, o, hdr, src, src, eof, true);
      buf[src] := 0;
      assert buf[..] == o[src := 0];
      return Value(hdr, src - hdr, src + 1, true);
    }
    r := CopyRest(buf, o, hdr, src, eof);
  }

  lemma SkippedCopying(o: seq<u8>, hdr: nat, src: nat, eof: nat)
    requires Padded(o, eof) && Skipped(o[..eof], hdr, src)
    ensures Copying(o, o, hdr, src, src, eof, true)
  {
    hide Sofar;
    assert o[..eof][hdr..src] == o[hdr..src];
  }

  /** Reading, in place, what `write_str` wrote gives the string back, wherever it stands
      and whatever follows it. */
  lemma ReadsBackWritten(s: seq<u8>, esc: bool, slash: bool, before: seq<u8>, after: seq<u8>, o: seq<u8>, b: seq<u8>, r: Reading)
    requires WellFormed(s, 0) && Encode(s, 0, esc, slash, false).Some?
    requires var text := before + [QUOTE] + Encode(s, 0, esc, slash, false).value + [QUOTE] + after;
             |text| <= |o| && o[..|text|] == text && Result(o, b, |before| + 1, |text|, r)
    ensures r.Value? && r.at == |before| + 1 && r.len == |s| && r.at + r.len < |b| && b[r.at..r.at + r.len] == s
    ensures r.end == |before| + |Encode(s, 0, esc, slash, false).value| + 2
  {
    hide Encode, Decode, WellFormed;
    RoundTrip(s, esc, slash, before, after);
  }

  /** A string that was tagged as free of escapes is written the same with and without
      looking at it. */
  lemma NoescWritten(o: seq<u8>, b: seq<u8>, hdr: nat, eof: nat, r: Reading)
    requires Result(o, b, hdr, eof, r) && r.Value? && r.noesc
    ensures r.at + r.len < |b|
    ensures var v := b[r.at..r.at + r.len];
            v == o[r.at..r.at + r.len] && Encode(v, 0, false, false, false) == Some(v)
  {
    hide Encode, Decode, WellFormed;
    PlainIsOwnText(o[..eof], hdr);
    var end := Decode(o[..eof], hdr).end;
    assert o[..eof][hdr..end - 1] == o[hdr..end - 1];
  }
}
