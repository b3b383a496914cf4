/** `write_str`, `write_str_noesc` and `read_str_opt` as they work on buffers. */
module StringCodec {
  import opened Options
  import opened Utf8
  import opened JsonStrings

  /** Copies bytes into a buffer. */
  method Put(buf: array<u8>, at: nat, bytes: seq<u8>)
    requires at + |bytes| <= buf.Length
    modifies buf
    ensures buf[..] == old(buf[..at]) + bytes + old(buf[at + |bytes|..])
  {
    for k := 0 to |bytes|
      invariant buf[..at] == old(buf[..at]) && buf[at..at + k] == bytes[..k]
      invariant buf[at + k..] == old(buf[at + k..])
    {
      buf[at + k] := bytes[k];
      assert buf[at..at + k + 1] == buf[at..at + k] + [bytes[k]];
    }
    assert buf[..] == buf[..at] + buf[at..at + |bytes|] + buf[at + |bytes|..];
  }

  method Append(buf: array<u8>, at: nat, bytes: seq<u8>)
    requires at + |bytes| <= buf.Length
    modifies buf
    ensures buf[..at + |bytes|] == old(buf[..at]) + bytes
  {
    Put(buf, at, bytes);
  }

  // ---------------------------------------------------------------- writing

  /** The encode tables: half of the type is the length of the sequence. */
  function EncType(c: u8, esc: bool, slash: bool): nat {
    if c < 0x80 then (if Letter(c, slash) != 0 then 2 else if c < 0x20 then 3 else 0)
    else if 0xC0 <= c <= 0xDF then (if esc then 5 else 4)
    else if 0xE0 <= c <= 0xEF then (if esc then 7 else 6)
    else if 0xF0 <= c <= 0xF7 then (if esc then 9 else 8)
    else 1
  }

  /** The `switch` of `write_str`, with its tests on loaded words. */
  method PieceAt(s: seq<u8>, i: nat, esc: bool, slash: bool) returns (p: Piece)
    requires i < |s|
    ensures p == WriteStep(s, i, esc, slash)
  {
    var kind := EncType(s[i], esc, slash);
    var left := |s| - i;
    if left < 4 && left < kind / 2 { return Broken; }
    var a, b, c, d := At(s, i), At(s, i + 1), At(s, i + 2), At(s, i + 3);
    Seq2Is(a, b, 0, 0);
    Seq3Is(a, b, c, d);
    Seq3Is(a, b, c, 0);
    Seq4Is(a, b, c, d);
    hide IsSeq2, IsSeq3, IsSeq4, Load, Unicode, Unit2, Unit3, Point4, High, Low;
    match kind
    case 0 => p := Copy(1);
    case 2 => p := Text(1, [BACKSLASH, Letter(a, slash)]);
    case 3 => p := Text(1, Unicode(a as bv16));
    case 4 => p := if IsSeq2(Load(a, b, 0, 0)) then Copy(2) else Broken;
    case 5 => p := if IsSeq2(Load(a, b, 0, 0)) then Text(2, Unicode(Unit2(a, b))) else Broken;
    case 6 => p := if IsSeq3(if left >= 4 then Load(a, b, c, d) else Load(a, b, c, 0)) then Copy(3) else Broken;
    case 7 => p := if IsSeq3(Load(a, b, c, 0)) then Text(3, Unicode(Unit3(a, b, c))) else Broken;
    case 8 => p := if IsSeq4(Load(a, b, c, d)) then Copy(4) else Broken;
    case 9 =>
      var u := Point4(a, b, c, d);
      p := if IsSeq4(Load(a, b, c, d)) then Text(4, Unicode(High(u)) + Unicode(Low(u))) else Broken;
    case _ => p := Broken;
  }

  /** How much of the string the next piece takes, and what is written for it. */
  function Taken(s: seq<u8>, i: nat, esc: bool, slash: bool, inv: bool): (nat, seq<u8>)
    requires i < |s|
  {
    WriteFits(s, i, esc, slash);
    match WriteStep(s, i, esc, slash)
    case Copy(n) => (n, s[i..i + n])
    case Text(n, out) => (n, out)
    case Broken => if inv then (1, Repair(s[i], esc)) else (0, [])
  }

  lemma EncodeTake(s: seq<u8>, i: nat, esc: bool, slash: bool, inv: bool)
    requires i < |s|
    ensures var (n, out) := Taken(s, i, esc, slash, inv);
            if n == 0 then Encode(s, i, esc, slash, inv) == None
            else i + n <= |s| && |out| <= 6 * n && Encode(s, i, esc, slash, inv) == Ahead(out, Encode(s, i + n, esc, slash, inv))
  {
    WriteFits(s, i, esc, slash);
    StepSize(s, i, esc, slash);
    hide WriteStep, SeqLen;
  }

  lemma AheadTwice(a: seq<u8>, b: seq<u8>, rest: Option<seq<u8>>)
    ensures Ahead(a, Ahead(b, rest)) == Ahead(a + b, rest)
  {
    if rest.Some? { assert a + (b + rest.value) == a + b + rest.value; }
  }

  /** One round of `write_str`: the bytes for the next position. */
  method NextOutput(s: seq<u8>, src: nat, esc: bool, slash: bool, inv: bool) returns (n: nat, out: seq<u8>)
    requires src < |s|
    ensures n == 0 ==> Encode(s, src, esc, slash, inv) == None
    ensures n > 0 ==> src + n <= |s| && |out| <= 6 * n
    ensures n > 0 ==> Encode(s, src, esc, slash, inv) == Ahead(out, Encode(s, src + n, esc, slash, inv))
  {
    var p := PieceAt(s, src, esc, slash);
    EncodeTake(s, src, esc, slash, inv);
    hide Encode, WriteStep, Taken;
    n, out := Output(p, s, src, esc, slash, inv);
  }

  method Output(p: Piece, s: seq<u8>, src: nat, esc: bool, slash: bool, inv: bool) returns (n: nat, out: seq<u8>)
    requires src < |s| && p == WriteStep(s, src, esc, slash)
    ensures (n, out) == Taken(s, src, esc, slash, inv)
  {
    WriteFits(s, src, esc, slash);
    hide WriteStep, Repair;
    match p
    case Copy(k) => n, out := k, s[src..src + k];
    case Text(k, o) => n, out := k, o;
    case Broken => if inv { n, out := 1, Repair(s[src], esc); } else { n, out := 0, []; }
  }

  /** `text` is `head` and what was written for the string up to `src`. */
  ghost predicate Writing(text: seq<u8>, head: seq<u8>, body: seq<u8>, s: seq<u8>, src: nat, esc: bool, slash: bool, inv: bool) {
    text == head + body && Encode(s, 0, esc, slash, inv) == Ahead(body, Encode(s, src, esc, slash, inv))
  }

  method WriteNext(buf: array<u8>, cur: nat, s: seq<u8>, src: nat, esc: bool, slash: bool, inv: bool,
                   ghost head: seq<u8>, ghost body: seq<u8>)
    returns (n: nat, cur': nat, ghost body': seq<u8>)
    requires src < |s| && cur + 6 * (|s| - src) + 1 <= buf.Length
    requires Writing(buf[..cur], head, body, s, src, esc, slash, inv)
    modifies buf
    ensures n == 0 ==> Encode(s, 0, esc, slash, inv) == None
    ensures n > 0 ==> src + n <= |s| && cur' + 6 * (|s| - (src + n)) + 1 <= buf.Length
    ensures n > 0 ==> Writing(buf[..cur'], head, body', s, src + n, esc, slash, inv)
  {
    hide Encode, Ahead;
    var out;
    n, out := NextOutput(s, src, esc, slash, inv);
    cur', body' := cur, body;
    if n == 0 {
      AheadNone(body);
    } else {
      Append(buf, cur, out);
      AheadTwice(body, out, Encode(s, src + n, esc, slash, inv));
      cur', body' := cur + |out|, body + out;
      assert head + body + out == head + body';
    }
  }

  /** `write_str` into a buffer that has six bytes for every byte of the string and two for
      the quotes. */
  method WriteStr(buf: array<u8>, start: nat, s: seq<u8>, esc: bool, slash: bool, inv: bool) returns (ok: bool, cur: nat)
    requires start + 6 * |s| + 2 <= buf.Length
    modifies buf
    ensures ok <==> Encode(s, 0, esc, slash, inv).Some?
    ensures ok ==> cur <= buf.Length
    ensures ok ==> buf[..cur] == old(buf[..start]) + [QUOTE] + Encode(s, 0, esc, slash, inv).value + [QUOTE]
  {
    Append(buf, start, [QUOTE]);
    ghost var head, body := buf[..start + 1], [];
    WritingStarts(head, s, esc, slash, inv);
    hide Encode, Writing;
    ok, cur, body := WriteBody(buf, start + 1, s, esc, slash, inv, head);
    if ok {
      WritingEnds(buf[..cur], head, body, s, esc, slash, inv);
      Append(buf, cur, [QUOTE]);
      cur := cur + 1;
    }
  }

  /** The loop of `write_str`. */
  method WriteBody(buf: array<u8>, start: nat, s: seq<u8>, esc: bool, slash: bool, inv: bool, ghost head: seq<u8>)
    returns (ok: bool, cur: nat, ghost body: seq<u8>)
    requires start + 6 * |s| + 1 <= buf.Length && Writing(buf[..start], head, [], s, 0, esc, slash, inv)
    modifies buf
    ensures !ok ==> Encode(s, 0, esc, slash, inv) == None
    ensures ok ==> cur < buf.Length && Writing(buf[..cur], head, body, s, |s|, esc, slash, inv)
  {
    var src := 0;
    cur, body := start, [];
    hide Encode, Writing;
    while src < |s|
      invariant src <= |s| && cur + 6 * (|s| - src) + 1 <= buf.Length
      invariant Writing(buf[..cur], head, body, s, src, esc, slash, inv)
    {
      var n;
      n, cur, body := WriteNext(buf, cur, s, src, esc, slash, inv, head, body);
      if n == 0 { return false, cur, body; }
      src := src + n;
    }
    ok := true;
  }

  lemma WritingStarts(head: seq<u8>, s: seq<u8>, esc: bool, slash: bool, inv: bool)
    ensures Writing(head, head, [], s, 0, esc, slash, inv)
  {
    hide Encode;
    AheadNothing(Encode(s, 0, esc, slash, inv));
  }

  lemma WritingEnds(text: seq<u8>, head: seq<u8>, body: seq<u8>, s: seq<u8>, esc: bool, slash: bool, inv: bool)
    requires Writing(text, head, body, s, |s|, esc, slash, inv)
    ensures text == head + body && Encode(s, 0, esc, slash, inv) == Some(body)
  {
    hide Encode;
    EncodeEnd(s, esc, slash, inv);
    AheadEmpty(body);
  }

  lemma AheadNothing(rest: Option<seq<u8>>)
    ensures Ahead([], rest) == rest
  {
    if rest.Some? { assert [] + rest.value == rest.value; }
  }

  lemma AheadNone(a: seq<u8>)
    ensures Ahead(a, None) == None
  {
  }

  lemma AheadEmpty(a: seq<u8>)
    ensures Ahead(a, Some([])) == Some(a)
  {
    assert a + [] == a;
  }

  /** `write_str_noesc` */
  method WriteNoesc(buf: array<u8>, start: nat, s: seq<u8>) returns (cur: nat)
    requires start + |s| + 2 <= buf.Length
    modifies buf
    ensures cur == start + |s| + 2 && buf[..cur] == old(buf[..start]) + [QUOTE] + s + [QUOTE]
  {
    Append(buf, start, [QUOTE]);
    Append(buf, start + 1, s);
    Append(buf, start + 1 + |s|, [QUOTE]);
    cur := start + |s| + 2;
  }
}
