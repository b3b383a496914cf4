/** The receive side of `upstream_conn_t`, and the request parse of `rpc_proxy.c`. */
module HttpReceiver {
  import opened Options
  import opened DecimalText
  import opened HttpFraming

  /** The loop that looks for the blank line after the headers. */
  method ScanHeaderEnd(buf: array<byte>, len: nat) returns (end: Option<nat>)
    requires len <= buf.Length
    ensures end == HeaderEnd(buf[..], len, 0)
  {
    var i := 0;
    while i + 3 < len
      invariant 0 <= i && HeaderEnd(buf[..], len, 0) == HeaderEnd(buf[..], len, i)
      decreases len - i
    {
      if buf[i] == CR && buf[i + 1] == LF && buf[i + 2] == CR && buf[i + 3] == LF { return Some(i + 4); }
      i := i + 1;
    }
    end := None;
  }

  /** The loop over blanks after a label. */
  method ScanBlanks(buf: array<byte>, from: nat) returns (i: nat)
    ensures i == SkipBlanks(buf[..], from)
  {
    i := from;
    while Blank(At(buf[..], i))
      invariant SkipBlanks(buf[..], from) == SkipBlanks(buf[..], i)
      decreases buf.Length - i
    {
      i := i + 1;
    }
  }

  method ScanLength(buf: array<byte>, end: nat) returns (n: nat)
    ensures n == ContentLength(buf[..], end)
  {
    n := 0;
    var found := Find(buf[..], LENGTH_LABEL, 0);
    if found.Some? && found.value < end {
      var i := ScanBlanks(buf, found.value + 15);
      n := Strtoull(buf[..], i);
    }
  }

  method ScanClose(buf: array<byte>, end: nat) returns (close: bool)
    ensures close == ConnectionClose(buf[..], end)
  {
    close := false;
    var found := Find(buf[..], CONNECTION_LABEL, 0);
    if found.Some? && found.value < end {
      var i := ScanBlanks(buf, found.value + 11);
      close := Matches(buf[..], i, CLOSE);
    }
  }

  /** `parse_http_request`: the whole buffer is parsed again at every read. */
  method RequestComplete(buf: array<byte>, len: nat) returns (complete: bool)
    requires len <= buf.Length
    ensures complete == (Parse(buf[..], len).Some? && Complete(Parse(buf[..], len).value, len))
  {
    var end := ScanHeaderEnd(buf, len);
    if end.None? { return false; }
    var n := ScanLength(buf, end.value);
    complete := len >= (end.value + n) % SIZES;
  }

  /** What `recv` returns: bytes, none at the end of the stream, or one of two failures. */
  datatype Recv = Bytes(data: seq<byte>) | WouldBlock | Error

  datatype Result = Lost | Waiting | Answered

  class Connection {
    const buf: array<byte>
    var len: nat
    var headersComplete: bool
    var headerLen: nat
    var contentLength: nat
    var connectionClose: bool

    constructor (cap: nat)
      ensures Valid() && fresh(buf) && buf.Length == cap && View() == Receiver(buf[..], 0, None)
    {
      buf := new byte[cap](_ => 0);
      len, headersComplete, headerLen, contentLength, connectionClose := 0, false, 0, 0, false;
    }

    ghost predicate Valid()
      reads this
    {
      len <= buf.Length
    }

    ghost function View(): Receiver
      reads this, buf
    {
      Receiver(buf[..], len, if headersComplete then Some(Headers(headerLen, contentLength, connectionClose)) else None)
    }

    /** `parse_headers` */
    method ParseHeaders() returns (complete: bool)
      requires Valid()
      modifies this`headersComplete, this`headerLen, this`contentLength, this`connectionClose
      ensures complete == headersComplete && View() == ParseOnce(old(View()))
    {
      if headersComplete { return true; }
      var end := ScanHeaderEnd(buf, len);
      if end.None? { return false; }
      var n := ScanLength(buf, end.value);
      var close := ScanClose(buf, end.value);
      headerLen, headersComplete, contentLength, connectionClose := end.value, true, n, close;
      return true;
    }

    /** `rpc_conn_response_complete` */
    predicate ResponseComplete()
      reads this
    {
      headersComplete && len >= (headerLen + contentLength) % SIZES
    }

    /** The bytes of one `recv`. */
    method Fill(chunk: seq<byte>)
      requires Valid() && len + |chunk| <= buf.Length
      modifies this`len, buf
      ensures Valid() && View() == HttpFraming.Append(old(View()), chunk)
    {
      var n := len;
      for k := 0 to |chunk|
        invariant n == len == old(len) && buf[..n] == old(buf[..n]) && buf[n..n + k] == chunk[..k]
        invariant buf[n + k..] == old(buf[n + k..])
      {
        buf[n + k] := chunk[k];
        assert buf[n..n + k + 1] == buf[n..n + k] + [chunk[k]];
      }
      assert buf[..] == buf[..n] + buf[n..n + |chunk|] + buf[n + |chunk|..];
      len := len + |chunk|;
    }

    /** A readable socket in the state RECEIVING.  A full buffer, an error and the end of the
        stream lose the connection; otherwise the bytes are taken in. */
    method OnReadable(recv: Recv) returns (result: Result)
      requires Valid() && (recv.Bytes? ==> |recv.data| <= buf.Length - len)
      modifies this, buf
      ensures result == Lost <==> old(len) == buf.Length || recv.Error? || recv == Bytes([])
      ensures result == Lost || recv.WouldBlock? ==> View() == old(View()) && result != Answered
      ensures result != Lost && recv.Bytes? ==>
                Valid() && View() == Feed(old(View()), recv.data) && (result == Answered <==> Finished(View()))
    {
      if len == buf.Length { return Lost; }
      match recv
      case WouldBlock => return Waiting;
      case Error => return Lost;
      case Bytes(data) =>
        if data == [] { return Lost; }
        hide Parse, HttpFraming.Append;
        Fill(data);
        var complete := ParseHeaders();
        result := if complete && ResponseComplete() then Answered else Waiting;
    }

    /** `rpc_conn_get_response`: where the body stands in the buffer. */
    method Response() returns (body: Option<(nat, nat)>)
      ensures body == if Finished(View()) then Some((headerLen, contentLength)) else None
    {
      body := if ResponseComplete() then Some((headerLen, contentLength)) else None;
    }
  }
}
