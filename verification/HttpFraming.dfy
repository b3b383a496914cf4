/** How `rpc_conn.c` and `rpc_proxy.c` find the end of an HTTP message. The receive buffer is a
    memory `m` of which the first `len` bytes were received; what lies behind is left over from
    earlier messages. Memory ends with a zero byte. */
module HttpFraming {
  import opened Options
  import opened DecimalText

  const CR: byte := 13
  const LF: byte := 10
  const SIZES: nat := 0x1_0000_0000_0000_0000

  // ---------------------------------------------------------------- the end of the headers

  predicate BlankLine(m: seq<byte>, i: nat) {
    At(m, i) == CR && At(m, i + 1) == LF && At(m, i + 2) == CR && At(m, i + 3) == LF
  }

  /** The length of the headers, once they have all been received. */
  function HeaderEnd(m: seq<byte>, len: nat, i: nat): Option<nat>
    decreases len - i
  {
    if i + 3 >= len then None
    else if BlankLine(m, i) then Some(i + 4)
    else HeaderEnd(m, len, i + 1)
  }

  // ---------------------------------------------------------------- strcasestr, strtoull

  function Lower(c: byte): byte { if 65 <= c <= 90 then c + 32 else c }

  /** `word`, in small letters, stands at `i` in any case. */
  predicate Matches(m: seq<byte>, i: nat, word: seq<byte>) {
    forall k :: 0 <= k < |word| ==> Lower(At(m, i + k)) == word[k]
  }

  /** `strcasestr` */
  function Find(m: seq<byte>, word: seq<byte>, i: nat): Option<nat>
    decreases |m| - i
  {
    if At(m, i) == 0 then None
    else if Matches(m, i, word) then Some(i)
    else Find(m, word, i + 1)
  }

  predicate Blank(c: byte) { c == 32 || c == 9 }

  predicate Space(c: byte) { c == 32 || 9 <= c <= 13 }

  function SkipBlanks(m: seq<byte>, i: nat): nat
    decreases |m| - i
  {
    if Blank(At(m, i)) then SkipBlanks(m, i + 1) else i
  }

  function SkipSpaces(m: seq<byte>, i: nat): nat
    decreases |m| - i
  {
    if Space(At(m, i)) then SkipSpaces(m, i + 1) else i
  }

  /** The number whose digits go on at `i` after `acc` was read. */
  function Number(m: seq<byte>, i: nat, acc: nat): nat
    decreases |m| - i
  {
    if IsDigit(At(m, i)) then Number(m, i + 1, acc * 10 + DigitOf(At(m, i))) else acc
  }

  /** `strtoull` in base ten: white space, a sign, digits; too large a number is the largest. */
  function Strtoull(m: seq<byte>, i: nat): nat {
    var j := SkipSpaces(m, i);
    var signed := At(m, j) == 43 || At(m, j) == 45;
    var n := Number(m, if signed then j + 1 else j, 0);
    if n >= SIZES then SIZES - 1
    else if At(m, j) == 45 && n > 0 then SIZES - n
    else n
  }

  // ---------------------------------------------------------------- what is parsed

  const LENGTH_LABEL: seq<byte> := [99, 111, 110, 116, 101, 110, 116, 45, 108, 101, 110, 103, 116, 104, 58]
  const CONNECTION_LABEL: seq<byte> := [99, 111, 110, 110, 101, 99, 116, 105, 111, 110, 58]
  const CLOSE: seq<byte> := [99, 108, 111, 115, 101]

  function ContentLength(m: seq<byte>, end: nat): nat {
    match Find(m, LENGTH_LABEL, 0)
    case Some(p) => if p < end then Strtoull(m, SkipBlanks(m, p + 15)) else 0
    case None => 0
  }

  predicate ConnectionClose(m: seq<byte>, end: nat) {
    match Find(m, CONNECTION_LABEL, 0)
    case Some(p) => p < end && Matches(m, SkipBlanks(m, p + 11), CLOSE)
    case None => false
  }

  datatype Headers = Headers(len: nat, content: nat, close: bool)

  /** The stateless parse: what the received bytes say, if the headers are complete. */
  function Parse(m: seq<byte>, len: nat): Option<Headers> {
    match HeaderEnd(m, len, 0)
    case None => None
    case Some(end) => Some(Headers(end, ContentLength(m, end), ConnectionClose(m, end)))
  }

  /** The sum of the two lengths is a `size_t`. */
  predicate Complete(h: Headers, len: nat) { len >= (h.len + h.content) % SIZES }

  // ---------------------------------------------------------------- what the parse depends on

  /** Two memories hold the same first `n` bytes. */
  ghost predicate Agree(m: seq<byte>, m': seq<byte>, n: nat) { forall i :: 0 <= i < n ==> At(m, i) == At(m', i) }

  /** More bytes do not move the end of the headers. */
  lemma {:induction false} HeaderEndStays(m: seq<byte>, m': seq<byte>, len: nat, len': nat, i: nat)
    requires Agree(m, m', len) && len <= len' && HeaderEnd(m, len, i).Some?
    ensures HeaderEnd(m', len', i) == HeaderEnd(m, len, i)
    decreases len - i
  {
    if !BlankLine(m, i) { HeaderEndStays(m, m', len, len', i + 1); }
  }

  lemma {:induction false} HeaderEndLocal(m: seq<byte>, m': seq<byte>, len: nat, i: nat)
    requires Agree(m, m', len)
    ensures HeaderEnd(m', len, i) == HeaderEnd(m, len, i)
    decreases len - i
  {
    if i + 3 < len && !BlankLine(m, i) { HeaderEndLocal(m, m', len, i + 1); }
  }

  lemma {:induction false} HeaderEndIs(m: seq<byte>, len: nat, i: nat)
    ensures HeaderEnd(m, len, i).Some? ==>
              i + 4 <= HeaderEnd(m, len, i).value <= len && BlankLine(m, HeaderEnd(m, len, i).value - 4)
    decreases len - i
  {
    if i + 3 < len && !BlankLine(m, i) { HeaderEndIs(m, len, i + 1); }
  }

  /** A word without line ends. */
  ghost predicate OneLine(w: seq<byte>) { w != [] && forall k :: 0 <= k < |w| ==> w[k] != CR && w[k] != LF && w[k] != 0 }

  lemma LabelsAreOneLine()
    ensures OneLine(LENGTH_LABEL) && OneLine(CONNECTION_LABEL) && OneLine(CLOSE)
  {
  }

  /** A match that begins in the headers lies in them: it cannot run into their end. */
  lemma MatchInside(m: seq<byte>, i: nat, w: seq<byte>, end: nat)
    requires OneLine(w) && 4 <= end && BlankLine(m, end - 4) && i < end
    ensures Matches(m, i, w) ==> i + |w| <= end - 4
  {
    if i + |w| > end - 4 {
      var c := if i > end - 4 then i else end - 4;
      assert c == end - 4 || c == end - 4 + 1 || c == end - 4 + 2 || c == end - 4 + 3;
      assert At(m, i + (c - i)) != w[c - i] && Lower(At(m, i + (c - i))) != w[c - i];
    }
  }

  lemma MatchLocal(m: seq<byte>, m': seq<byte>, i: nat, w: seq<byte>, end: nat)
    requires OneLine(w) && 4 <= end && BlankLine(m, end - 4) && i < end && Agree(m, m', end)
    ensures Matches(m, i, w) <==> Matches(m', i, w)
  {
    assert BlankLine(m', end - 4);
    MatchInside(m, i, w, end);
    MatchInside(m', i, w, end);
  }

  /** Where a word is first found in the headers. */
  function FindIn(m: seq<byte>, w: seq<byte>, end: nat, i: nat): Option<nat> {
    match Find(m, w, i)
    case Some(p) => if p < end then Some(p) else None
    case None => None
  }

  lemma {:induction false} FindFrom(m: seq<byte>, w: seq<byte>, i: nat)
    ensures Find(m, w, i).Some? ==> i <= Find(m, w, i).value && Matches(m, Find(m, w, i).value, w)
    decreases |m| - i
  {
    if At(m, i) != 0 && !Matches(m, i, w) { FindFrom(m, w, i + 1); }
  }

  lemma {:induction false} FindLocal(m: seq<byte>, m': seq<byte>, w: seq<byte>, end: nat, i: nat)
    requires OneLine(w) && 4 <= end && BlankLine(m, end - 4) && Agree(m, m', end)
    ensures FindIn(m, w, end, i) == FindIn(m', w, end, i)
    decreases end - i
  {
    if i < end {
      MatchLocal(m, m', i, w, end);
      FindLocal(m, m', w, end, i + 1);
      hide Matches;
    } else {
      FindFrom(m, w, i);
      FindFrom(m', w, i);
    }
  }

  lemma {:induction false} BlanksLocal(m: seq<byte>, m': seq<byte>, end: nat, i: nat)
    requires 4 <= end && BlankLine(m, end - 4) && Agree(m, m', end) && i <= end - 4
    ensures SkipBlanks(m, i) == SkipBlanks(m', i) && i <= SkipBlanks(m, i) <= end - 4
    decreases end - i
  {
    if Blank(At(m, i)) { BlanksLocal(m, m', end, i + 1); }
  }

  lemma {:induction false} SpacesLocal(m: seq<byte>, m': seq<byte>, end: nat, i: nat)
    requires Agree(m, m', end) && i <= end && SkipSpaces(m, i) < end
    ensures SkipSpaces(m', i) == SkipSpaces(m, i) && i <= SkipSpaces(m, i) && !Space(At(m, SkipSpaces(m, i)))
    decreases end - i
  {
    SpacesFrom(m, i);
    if Space(At(m, i)) { SpacesLocal(m, m', end, i + 1); }
  }

  lemma {:induction false} SpacesFrom(m: seq<byte>, i: nat)
    ensures i <= SkipSpaces(m, i)
    decreases |m| - i
  {
    if Space(At(m, i)) { SpacesFrom(m, i + 1); }
  }

  lemma {:induction false} NumberLocal(m: seq<byte>, m': seq<byte>, end: nat, i: nat, acc: nat)
    requires 4 <= end && BlankLine(m, end - 4) && Agree(m, m', end) && i <= end - 4
    ensures Number(m, i, acc) == Number(m', i, acc)
    decreases end - i
  {
    if IsDigit(At(m, i)) { NumberLocal(m, m', end, i + 1, acc * 10 + DigitOf(At(m, i))); }
  }

  // ---------------------------------------------------------------- when the headers decide

  /** Something other than white space follows the label in the headers. This is what a
      caller can check: without it the number is looked for in the body. */
  predicate Settled(m: seq<byte>, end: nat) {
    match FindIn(m, LENGTH_LABEL, end, 0)
    case Some(p) => SkipSpaces(m, SkipBlanks(m, p + 15)) < end
    case None => true
  }

  lemma LengthLocal(m: seq<byte>, m': seq<byte>, end: nat)
    requires 4 <= end && BlankLine(m, end - 4) && Agree(m, m', end) && Settled(m, end)
    ensures ContentLength(m, end) == ContentLength(m', end) && Settled(m', end)
  {
    LabelsAreOneLine();
    FindLocal(m, m', LENGTH_LABEL, end, 0);
    FindFrom(m, LENGTH_LABEL, 0);
    match FindIn(m, LENGTH_LABEL, end, 0)
    case None =>
    case Some(p) =>
      MatchInside(m, p, LENGTH_LABEL, end);
      hide Find, Matches, OneLine;
      BlanksLocal(m, m', end, p + 15);
      NumberSettled(m, m', end, SkipBlanks(m, p + 15));
  }

  lemma NumberSettled(m: seq<byte>, m': seq<byte>, end: nat, i: nat)
    requires 4 <= end && BlankLine(m, end - 4) && Agree(m, m', end) && i <= end - 4 && SkipSpaces(m, i) < end
    ensures Strtoull(m, i) == Strtoull(m', i) && SkipSpaces(m', i) == SkipSpaces(m, i)
  {
    SpacesLocal(m, m', end, i);
    var j := SkipSpaces(m, i);
    assert j < end - 4 by { assert j != end - 4 + 1 && j != end - 4 + 2 && j != end - 4 + 3; }
    NumberLocal(m, m', end, j, 0);
    NumberLocal(m, m', end, j + 1, 0);
    hide Number, SkipSpaces;
  }

  lemma CloseLocal(m: seq<byte>, m': seq<byte>, end: nat)
    requires 4 <= end && BlankLine(m, end - 4) && Agree(m, m', end)
    ensures ConnectionClose(m, end) == ConnectionClose(m', end)
  {
    LabelsAreOneLine();
    FindLocal(m, m', CONNECTION_LABEL, end, 0);
    FindFrom(m, CONNECTION_LABEL, 0);
    match FindIn(m, CONNECTION_LABEL, end, 0)
    case None =>
    case Some(p) =>
      MatchInside(m, p, CONNECTION_LABEL, end);
      BlanksLocal(m, m', end, p + 11);
      MatchLocal(m, m', SkipBlanks(m, p + 11), CLOSE, end);
      hide Find, Matches, OneLine;
  }

  /** Once the headers have been received and settle the length, no byte behind them, old or
      new, changes what is parsed. */
  lemma ParseStays(m: seq<byte>, m': seq<byte>, len: nat, len': nat)
    requires Agree(m, m', len) && len <= len' && Parse(m, len).Some? && Settled(m, Parse(m, len).value.len)
    ensures Parse(m', len') == Parse(m, len)
  {
    HeaderEndStays(m, m', len, len', 0);
    HeaderEndIs(m, len, 0);
    hide HeaderEnd, ContentLength, ConnectionClose;
    var end := Parse(m, len).value.len;
    LengthLocal(m, m', end);
    CloseLocal(m, m', end);
  }

  // ---------------------------------------------------------------- receiving in pieces

  /** The connection's receive state: what `parse_headers` remembers between reads. */
  datatype Receiver = Receiver(mem: seq<byte>, len: nat, headers: Option<Headers>)

  function Append(r: Receiver, chunk: seq<byte>): Receiver
    requires r.len + |chunk| <= |r.mem|
  {
    r.(mem := r.mem[..r.len] + chunk + r.mem[r.len + |chunk|..], len := r.len + |chunk|)
  }

  function ParseOnce(r: Receiver): Receiver {
    if r.headers.Some? then r else r.(headers := Parse(r.mem, r.len))
  }

  /** A read appends to the buffer, and the headers are parsed once. */
  function Feed(r: Receiver, chunk: seq<byte>): Receiver
    requires r.len + |chunk| <= |r.mem|
  {
    ParseOnce(Append(r, chunk))
  }

  function Flat(chunks: seq<seq<byte>>): seq<byte> {
    if chunks == [] then [] else Flat(chunks[..|chunks| - 1]) + chunks[|chunks| - 1]
  }

  /** The state after all pieces, from an empty buffer that still holds `stale` bytes. */
  function Received(stale: seq<byte>, chunks: seq<seq<byte>>): (r: Receiver)
    requires |Flat(chunks)| <= |stale|
    ensures r.len == |Flat(chunks)| && |r.mem| == |stale| && r.mem[..r.len] == Flat(chunks)
  {
    if chunks == [] then Receiver(stale, 0, None)
    else Feed(Received(stale, chunks[..|chunks| - 1]), chunks[|chunks| - 1])
  }

  predicate Finished(r: Receiver) { r.headers.Some? && Complete(r.headers.value, r.len) }

  /** A response whose headers settle its length, and that fits the buffer. */
  ghost predicate Framed(text: seq<byte>, h: Headers, cap: nat) {
    Parse(text, |text|) == Some(h) && Settled(text, h.len) && h.len + h.content <= cap < SIZES
  }

  /** At any time the state is what the response itself says, so nothing depends on the cuts
      or on what the buffer held before. */
  lemma {:induction false} AnyCut(stale: seq<byte>, chunks: seq<seq<byte>>, text: seq<byte>, h: Headers)
    requires |Flat(chunks)| <= |stale| && Framed(text, h, |stale|) && Flat(chunks) <= text
    ensures var r := Received(stale, chunks);
            && r.headers == (if r.len >= h.len then Some(h) else None)
            && r.headers == Parse(r.mem, r.len)
  {
    var r := Received(stale, chunks);
    assert forall i :: 0 <= i < r.len ==> r.mem[i] == r.mem[..r.len][i];
    assert Agree(text, r.mem, r.len);
    ParsePrefix(text, r.mem, r.len, h);
    if chunks == [] {
      HeaderEndIs(text, |text|, 0);
    } else {
      AnyCut(stale, chunks[..|chunks| - 1], text, h);
    }
    hide Parse, Settled;
  }

  lemma ParsePrefix(text: seq<byte>, m: seq<byte>, len: nat, h: Headers)
    requires Agree(text, m, len) && len <= |text| && Parse(text, |text|) == Some(h) && Settled(text, h.len)
    ensures Parse(m, len) == if len >= h.len then Some(h) else None
  {
    HeaderEndLocal(text, m, len, 0);
    HeaderEndIs(text, |text|, 0);
    HeaderEndIs(text, len, 0);
    HeaderEndReach(text, |text|, len, 0);
    hide HeaderEnd, ContentLength, ConnectionClose, Settled;
    if len >= h.len {
      LengthLocal(text, m, h.len);
      CloseLocal(text, m, h.len);
    }
  }

  /** The end of the headers is found as soon as it has been received. */
  lemma {:induction false} HeaderEndReach(m: seq<byte>, len: nat, len': nat, i: nat)
    requires len' <= len && HeaderEnd(m, len, i).Some?
    ensures HeaderEnd(m, len', i) == if len' >= HeaderEnd(m, len, i).value then HeaderEnd(m, len, i) else None
    decreases len - i
  {
    HeaderEndIs(m, len, i);
    if !BlankLine(m, i) { HeaderEndReach(m, len, len', i + 1); }
  }

  /** Completion is reported by the first read that brings the last byte, and the body is the
      same for every cut. */
  lemma ChunkIndependent(stale: seq<byte>, chunks: seq<seq<byte>>, text: seq<byte>, h: Headers)
    requires |Flat(chunks)| <= |stale| && Framed(text, h, |stale|) && Flat(chunks) <= text
    ensures var r := Received(stale, chunks);
            && (Finished(r) <==> |Flat(chunks)| >= h.len + h.content)
            && (Finished(r) ==> r.headers == Some(h) && r.mem[h.len..h.len + h.content] == text[h.len..h.len + h.content])
  {
    hide Parse, Settled, Received, Complete;
    AnyCut(stale, chunks, text, h);
    Fits(h);
    var r := Received(stale, chunks);
    if r.len >= h.len + h.content { SameSlice(r.mem, text, r.len, h.len, h.len + h.content); }
  }

  lemma Fits(h: Headers)
    requires h.len + h.content < SIZES
    ensures forall len: nat :: Complete(h, len) <==> len >= h.len + h.content
  {
  }

  lemma SameSlice(m: seq<byte>, text: seq<byte>, n: nat, i: nat, j: nat)
    requires i <= j <= n <= |m| && m[..n] <= text
    ensures j <= |text| && m[i..j] == text[i..j]
  {
    assert m[i..j] == m[..n][i..j];
  }

  // ---------------------------------------------------------------- when they do not

  lemma {:induction false} SpacesThrough(h: seq<byte>, d: byte, i: nat)
    requires i <= |h| <= SkipSpaces(h, i) && !Space(d)
    ensures SkipSpaces(h + [d], i) == |h|
    decreases |h| - i
  {
    if i < |h| { SpacesThrough(h, d, i + 1); }
  }

  /** Headers that do not settle the length leave it to the first byte of the body. */
  lemma BodyDecides(h: seq<byte>, d: byte)
    requires 4 <= |h| && BlankLine(h, |h| - 4) && !Settled(h, |h|) && IsDigit(d)
    ensures ContentLength(h + [d], |h|) == DigitOf(d)
  {
    var m, end := h + [d], |h|;
    assert Agree(h, m, end);
    LabelsAreOneLine();
    FindLocal(h, m, LENGTH_LABEL, end, 0);
    FindFrom(h, LENGTH_LABEL, 0);
    var p := FindIn(h, LENGTH_LABEL, end, 0).value;
    MatchInside(h, p, LENGTH_LABEL, end);
    BlanksLocal(h, m, end, p + 15);
    var q := SkipBlanks(h, p + 15);
    SpacesThrough(h, d, q);
    hide Find, Matches, OneLine, SkipSpaces, SkipBlanks;
    assert At(m, end) == d && At(m, end + 1) == 0;
    assert Number(m, end + 1, DigitOf(d)) == DigitOf(d);
    assert Number(m, end, 0) == DigitOf(d);
  }

  /** The length that the headers settle is the same for every body; where they do not, two
      bodies get two lengths. */
  lemma SettledExactly(h: seq<byte>)
    requires 4 <= |h| && BlankLine(h, |h| - 4)
    ensures Settled(h, |h|) <==> forall a: seq<byte>, b: seq<byte> :: ContentLength(h + a, |h|) == ContentLength(h + b, |h|)
  {
    if Settled(h, |h|) {
      forall a: seq<byte>, b: seq<byte>
        ensures ContentLength(h + a, |h|) == ContentLength(h + b, |h|)
      {
        LengthLocal(h, h + a, |h|);
        LengthLocal(h, h + b, |h|);
        hide ContentLength, Settled;
      }
    } else {
      BodyDecides(h, 53);
      BodyDecides(h, 55);
      hide ContentLength, Settled;
      assert ContentLength(h + [53], |h|) != ContentLength(h + [55], |h|);
    }
  }
}
