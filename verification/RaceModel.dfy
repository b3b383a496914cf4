/**
  The state of the RPC proxy (`src/rpc_proxy.c`), of its connection pairs
  (`src/conn_pair.c`) and of the upstream connections (`src/rpc_conn.c`) as values,
  and the effect of every event-loop callback on that state.

  Bodies of responses are abstracted to a `Reply`: whether the proxy classifies the
  response as an error, the block height it carries (-1 if none) and whether the server
  asked for the connection to be closed.
 */
module RaceModel {
  import opened Options

  // ---------------------------------------------------------------- connections

  datatype ConnState = Disconnected | Connecting | Connected | Sending | Receiving

  datatype Reply = Reply(isError: bool, height: int, close: bool)

  /** What has passed over a connection's socket; the source has no such record, it only
      serves to state which request is answered.  HTTP gives answers in the order of the
      requests: `owed` are the requests sent whole whose answers have not been read whole.
      `torn`: the last transfer stopped inside a request or an answer.  `garbled`: bytes were
      left out in between, so that answers can no longer be told apart.  `held`: the request
      that the response held in the buffer answers, 0 if that cannot be told. */
  datatype Socket = Socket(owed: seq<nat>, torn: bool, garbled: bool, held: nat)

  const NEW_SOCKET := Socket([], false, false, 0)

  /** The request that the next answer read from the socket belongs to, 0 if none. */
  function Next(k: Socket): nat { if k.garbled || k.owed == [] then 0 else k.owed[0] }

  function SocketSent(k: Socket, req: nat): Socket { k.(owed := k.owed + [req], torn := false) }

  function SocketTorn(k: Socket): Socket { k.(torn := true) }

  /** A read completes `got` answers and leaves a part of another one if `torn`; the first
      of them is the response of a connection that holds none. */
  function SocketRead(k: Socket, first: bool, got: nat, torn: bool): Socket {
    k.(owed := if got <= |k.owed| then k.owed[got..] else [],
       torn := torn,
       garbled := k.garbled || got + (if torn then 1 else 0) > |k.owed|,
       held := if first then Next(k) else k.held)
  }

  /** The buffers are cleared, the socket is kept. */
  function SocketKept(k: Socket): Socket { k.(torn := false, garbled := k.garbled || k.torn) }

  /** One upstream connection.  `req` names the client request that was last sent on it; like
      `sock` it is not a field of the source. */
  datatype Conn = Conn(
    state: ConnState,
    loaded: bool,          // send_buf != NULL
    recv: bool,            // recv_len > 0
    reply: Option<Reply>,  // the complete response held in recv_buf
    closing: bool,         // connection_close
    standbyCb: bool,       // cb.on_connected == standby_on_connected
    req: nat,
    sock: Socket)

  predicate InFlight(c: Conn) {
    c.state == Sending || c.state == Receiving
  }

  function Disconnect(c: Conn): Conn {
    c.(state := Disconnected, loaded := false, recv := false, reply := None, closing := false)
  }

  function Reset(c: Conn): Conn {
    var cleared := c.(loaded := false, recv := false, reply := None, sock := SocketKept(c.sock));
    if c.closing then Disconnect(cleared)
    else if InFlight(c) then cleared.(state := Connected)
    else cleared
  }

  function Send(c: Conn, req: nat): Option<Conn> {
    if c.state == Connected then Some(c.(loaded := true, state := Sending, req := req)) else None
  }

  function SendComplete(c: Conn): Conn {
    c.(state := Receiving, recv := false, reply := None, closing := false, sock := SocketSent(c.sock, c.req))
  }

  // ---------------------------------------------------------------- connection pairs

  type Slot = k: nat | k <= 1

  datatype Pair = Pair(slot0: Conn, slot1: Conn, active: Slot, swapRequired: bool)

  function Other(k: Slot): Slot { 1 - k }

  function Get(p: Pair, k: Slot): Conn { if k == 0 then p.slot0 else p.slot1 }

  function Put(p: Pair, k: Slot, c: Conn): Pair {
    if k == 0 then p.(slot0 := c) else p.(slot1 := c)
  }

  function Active(p: Pair): Conn { Get(p, p.active) }

  function Standby(p: Pair): Conn { Get(p, Other(p.active)) }

  predicate Available(p: Pair) { Active(p).state == Connected }

  function Tick(p: Pair): Pair {
    if p.swapRequired && Active(p).state == Connected && Standby(p).state == Connected then
      p.(active := Other(p.active), swapRequired := false)
    else p
  }

  function ReportError(p: Pair): Pair {
    Put(p, p.active, Disconnect(Active(p))).(active := Other(p.active), swapRequired := false)
  }

  function StandbyOnConnected(p: Pair, k: Slot): Pair {
    if k == p.active then p
    else if Active(p).state != Connected && !InFlight(Active(p)) then
      p.(active := k, swapRequired := false)
    else Tick(p)
  }

  /** What a connect attempt led to: `rpc_conn_connect` returned at once with an error,
      left the connect in progress, or succeeded immediately. */
  datatype ConnectOutcome = Refused | InProgress | Immediate

  function OnConnected(p: Pair, k: Slot): Pair {
    if Get(p, k).standbyCb then StandbyOnConnected(p, k) else p
  }

  /** `rpc_conn_connect` on slot `k`. */
  function Connect(p: Pair, k: Slot, o: ConnectOutcome): Pair {
    if Get(p, k).state != Disconnected || o == Refused then p
    else if o == InProgress then Put(p, k, Get(p, k).(state := Connecting, sock := NEW_SOCKET))
    else OnConnected(Put(p, k, Get(p, k).(state := Connected, sock := NEW_SOCKET)), k)
  }

  function RefreshStandby(p: Pair, o: ConnectOutcome): Pair {
    var k := Other(p.active);
    var c := Get(p, k);
    if c.state == Connected || c.state == Disconnected then
      var dropped := if c.state == Connected then Disconnect(c) else c;
      Connect(Put(p, k, dropped.(standbyCb := true)), k, o)
    else p
  }

  function Rotate(p: Pair, o: ConnectOutcome): Pair {
    Tick(RefreshStandby(p, o).(swapRequired := true))
  }

  const FreshConn := Conn(Disconnected, false, false, None, false, false, 0, NEW_SOCKET)

  function InitPair(o0: ConnectOutcome, o1: ConnectOutcome): Pair {
    var p := Pair(FreshConn, FreshConn.(standbyCb := true), 0, false);
    Connect(Connect(p, 0, o0), 1, o1)
  }

  // ---------------------------------------------------------------- the proxy

  datatype Phase = Idle | Fanout | Sticky

  datatype Method =
    | GetBlockTemplate | SubmitBlock | SendRawTransaction | PreciousBlock
    | ValidateAddress | DecodeRawTransaction | OtherMethod

  datatype Route = Race | Broadcast | ToSticky

  /** How a node's part in a race ended: a complete response, or a transport failure
      with no retry left. */
  datatype Outcome = Answered(isError: bool) | Failed

  /** What an observer of the proxy sees.  The log grows at its end. */
  datatype Entry =
    | Routed(rpc: Method, route: Route)               // a request was classified and is dispatched
    | Sent(node: nat)                                    // first send of the request to a node
    | Resent(node: nat)                                  // the one retry
    | Finished(node: nat, outcome: Outcome, req: nat)    // `req`: the request that was answered or that failed
    | Forwarded(node: nat, req: nat, delivered: bool)    // a node's response is given to the client
    | ClosedClient                                       // the request is answered by closing the client
    | TimedOut
    | RaceOver                                           // all connections reset, the proxy is idle
    | Notified                                           // block notify

  datatype Proxy = Proxy(
    phase: Phase,
    stickyNode: int,
    lastHeight: int,
    notifyPending: bool,
    pending: int,
    winner: int,
    lastError: int,
    allMustComplete: bool,
    bestHeight: int,
    bestNode: int,
    heightMatched: bool,
    client: bool,
    rpc: Method,
    pairs: seq<Pair>,
    retried: seq<bool>,
    timer: bool,           // rpc_timeout_timer_fd >= 0
    leaked: nat,           // armed timers whose descriptor was overwritten
    req: nat,              // number of requests dispatched so far (specification only)
    log: seq<Entry>)       // specification only

  function PutConn(s: Proxy, i: nat, k: Slot, c: Conn): Proxy
    requires i < |s.pairs|
  {
    s.(pairs := s.pairs[i := Put(s.pairs[i], k, c)])
  }

  function Note(s: Proxy, e: Entry): Proxy { s.(log := s.log + [e]) }

  predicate AnyInFlight(pairs: seq<Pair>) {
    exists i :: 0 <= i < |pairs| && InFlight(Active(pairs[i]))
  }

  // ---------------------------------------------------------------- dispatch

  function Classify(s: Proxy): Route {
    match s.rpc
    case GetBlockTemplate => if s.notifyPending || s.stickyNode == -1 then Race else ToSticky
    case SubmitBlock | SendRawTransaction => Broadcast
    case PreciousBlock => ToSticky
    case ValidateAddress | DecodeRawTransaction | OtherMethod => Race
  }

  function ClassifyState(s: Proxy): Proxy {
    if s.rpc == GetBlockTemplate && Classify(s) == Race then s.(notifyPending := false) else s
  }

  /** The nodes below `n` that can take a request, in index order. */
  function Targets(pairs: seq<Pair>, n: nat): seq<nat>
    requires n <= |pairs|
  {
    if n == 0 then []
    else Targets(pairs, n - 1) + (if Available(pairs[n - 1]) then [n - 1] else [])
  }

  function SendIfAvailable(p: Pair, req: nat): Pair {
    if Available(p) then Put(p, p.active, Send(Active(p), req).value) else p
  }

  function SentEntries(nodes: seq<nat>): seq<Entry> {
    seq(|nodes|, j requires 0 <= j < |nodes| => Sent(nodes[j]))
  }

  function NoRetries(n: nat): seq<bool> { seq(n, _ => false) }

  function DispatchFanout(s: Proxy): Proxy {
    var nodes := Targets(s.pairs, |s.pairs|);
    s.(retried := NoRetries(|s.pairs|),
       pairs := seq(|s.pairs|, i requires 0 <= i < |s.pairs| => SendIfAvailable(s.pairs[i], s.req)),
       log := s.log + SentEntries(nodes),
       pending := |nodes|)
  }

  /** Closing the client as the answer to the current request. */
  function CloseClient(s: Proxy): Proxy { Note(s.(client := false), ClosedClient) }

  function StartTimer(s: Proxy, timerOk: bool): Proxy {
    if timerOk then s.(leaked := s.leaked + (if s.timer then 1 else 0), timer := true) else s
  }

  function FanoutResult(d: Proxy, timerOk: bool): Proxy {
    if d.pending <= 0 then CloseClient(d).(phase := Idle) else StartTimer(d, timerOk)
  }

  /** A fan-out that is abandoned when no node took the request. */
  function FanoutOrClose(s: Proxy, timerOk: bool): (t: Proxy)
    ensures t.lastHeight == s.lastHeight
  {
    FanoutResult(DispatchFanout(s), timerOk)
  }

  /** A sticky request that cannot go to the sticky node. */
  function StickyFallback(s: Proxy, timerOk: bool): (t: Proxy)
    ensures t.lastHeight == s.lastHeight
  {
    if s.rpc == PreciousBlock then CloseClient(s).(phase := Idle)
    else FanoutOrClose(s.(phase := Fanout, allMustComplete := false, bestHeight := -1,
                          bestNode := -1, heightMatched := false), timerOk)
  }

  function SendSticky(s: Proxy): Proxy
    requires 0 <= s.stickyNode < |s.pairs|
  {
    Note(s.(pairs := s.pairs[s.stickyNode := SendIfAvailable(s.pairs[s.stickyNode], s.req)],
            retried := NoRetries(|s.pairs|), pending := 1), Sent(s.stickyNode))
  }

  function DispatchSticky(s: Proxy, timerOk: bool): (t: Proxy)
    requires StickyValid(s)
    ensures t.lastHeight == s.lastHeight
  {
    if s.stickyNode == -1 || !Available(s.pairs[s.stickyNode]) then
      StickyFallback(s.(retried := NoRetries(|s.pairs|)), timerOk)
    else StartTimer(SendSticky(s), timerOk)
  }

  predicate StickyValid(s: Proxy) { s.stickyNode == -1 || 0 <= s.stickyNode < |s.pairs| }

  function Named(s: Proxy, m: Method): Proxy { s.(rpc := m, req := s.req + 1) }

  /** The state in which the dispatch switch of `client_cb` calls the dispatcher. */
  function Begin(s: Proxy, route: Route): Proxy {
    Note(s, Routed(s.rpc, route)).(
      phase := if route == ToSticky then Sticky else Fanout,
      allMustComplete := route == Broadcast,
      winner := -1, lastError := -1, bestHeight := -1, bestNode := -1, heightMatched := false)
  }

  function Opened(s: Proxy, m: Method): Proxy {
    Begin(ClassifyState(Named(s, m)), Classify(Named(s, m)))
  }

  function Dispatch(s: Proxy, timerOk: bool): Proxy
    requires StickyValid(s)
  {
    if s.phase == Sticky then DispatchSticky(s, timerOk) else FanoutOrClose(s, timerOk)
  }

  /** `client_cb` for one complete request. */
  function ClientRequest(s: Proxy, m: Method, timerOk: bool): Proxy
    requires StickyValid(s)
  {
    if s.phase != Idle then s
    else Dispatch(Opened(s, m), timerOk)
  }

  // ---------------------------------------------------------------- end of a race

  function ResetParticipant(p: Pair): Pair {
    if Active(p).loaded || InFlight(Active(p)) then Put(p, p.active, Reset(Active(p))) else p
  }

  function RaceComplete(s: Proxy): Proxy {
    Note(s.(timer := false, phase := Idle, pending := 0, winner := -1, lastError := -1,
            bestHeight := -1, bestNode := -1, heightMatched := false,
            pairs := seq(|s.pairs|, i requires 0 <= i < |s.pairs| => Tick(ResetParticipant(s.pairs[i])))),
         RaceOver)
  }

  /** Choosing a winner changes neither the connections nor the progress of the race. */
  predicate SameRace(s: Proxy, t: Proxy) {
    && t.pairs == s.pairs && t.timer == s.timer && t.pending == s.pending && t.retried == s.retried
    && t.req == s.req && t.phase == s.phase && t.rpc == s.rpc && t.allMustComplete == s.allMustComplete
    && t.notifyPending == s.notifyPending
  }

  function Forward(s: Proxy, i: nat, c: Conn): (t: Proxy)
    ensures SameRace(s, t) && t.winner == s.winner
  {
    if c.reply.Some? then Note(s, Forwarded(i, c.sock.held, s.client)) else s
  }

  function Max(a: int, b: int): int { if a < b then b else a }

  /** A response of node `i` is chosen in a getblocktemplate race. */
  function WinGbt(s: Proxy, i: nat, height: int, c: Conn): (t: Proxy)
    ensures SameRace(s, t) && t.winner == i && t.lastHeight >= s.lastHeight
  {
    Forward(s.(winner := i, stickyNode := i, lastHeight := Max(s.lastHeight, height)), i, c)
  }

  function GbtSuccess(s: Proxy, i: nat, c: Conn, height: int): (t: Proxy)
    ensures SameRace(s, t) && (t.winner == s.winner || t.winner == i) && t.lastHeight >= s.lastHeight
  {
    if s.heightMatched then s
    else if height == s.lastHeight + 1 then WinGbt(s.(heightMatched := true), i, height, c)
    else
      var tracked := if height >= s.bestHeight then s.(bestHeight := height, bestNode := i) else s;
      if tracked.winner == -1 then WinGbt(tracked, i, height, c) else tracked
  }

  predicate IsGbtRace(s: Proxy) { s.rpc == GetBlockTemplate && s.phase == Fanout }

  /** All nodes have finished and none won. */
  function FallbackChoice(s: Proxy): (t: Proxy)
    ensures SameRace(s, t) && t.lastHeight >= s.lastHeight
  {
    if IsGbtRace(s) && 0 <= s.bestNode < |s.pairs| then
      if Active(s.pairs[s.bestNode]).recv then
        WinGbt(s, s.bestNode, s.bestHeight, Active(s.pairs[s.bestNode]))
      else s
    else if 0 <= s.lastError < |s.pairs| && Active(s.pairs[s.lastError]).recv then
      Forward(s, s.lastError, Active(s.pairs[s.lastError]))
    else s
  }

  function ResetIfInFlight(p: Pair, k: Slot): Pair {
    if InFlight(Get(p, k)) then Put(p, k, Reset(Get(p, k))) else p
  }

  /** The winner of a race that need not wait for everybody: back to idle at once, the
      slower nodes drain.  Both the winner's active connection and the connection `(i, k)`
      that reported are reset. */
  function LeaveEarly(s: Proxy, i: nat, k: Slot): Proxy
    requires i < |s.pairs| && 0 <= s.winner < |s.pairs|
  {
    var won := s.pairs[s.winner := ResetIfInFlight(s.pairs[s.winner], s.pairs[s.winner].active)];
    s.(phase := Idle, pairs := won[i := ResetIfInFlight(won[i], k)])
  }

  /** A late event on an idle proxy: the connection is reset, and the safety timer goes
      when nothing is left to drain. */
  function DrainOne(s: Proxy, i: nat, k: Slot): Proxy
    requires i < |s.pairs|
  {
    var d := PutConn(s, i, k, Reset(Get(s.pairs[i], k)));
    d.(timer := d.timer && AnyInFlight(d.pairs))
  }

  function Finish(s: Proxy, i: nat, outcome: Outcome, req: nat): Proxy {
    Note(s.(pending := s.pending - 1), Finished(i, outcome, req))
  }

  /** What the complete response `r`, held by connection `c` of node `i`, changes. */
  function Judge(s: Proxy, i: nat, c: Conn, r: Reply): (t: Proxy)
    ensures SameRace(s, t) && (t.winner == s.winner || t.winner == i) && t.lastHeight >= s.lastHeight
  {
    if r.isError then s.(lastError := i)
    else if IsGbtRace(s) then GbtSuccess(s, i, c, r.height)
    else if s.winner == -1 then Forward(s.(winner := i), i, c)
    else s
  }

  /** Is the race over? */
  function Conclude(s: Proxy, i: nat, k: Slot): Proxy
    requires i < |s.pairs| && (s.winner != -1 ==> 0 <= s.winner < |s.pairs|)
  {
    if s.pending <= 0 then RaceComplete(if s.winner == -1 then FallbackChoice(s) else s)
    else if !s.allMustComplete && s.winner != -1 then LeaveEarly(s, i, k)
    else s
  }

  /** `on_upstream_response`; the connection already holds the complete response. */
  function OnResponse(s: Proxy, i: nat, k: Slot, r: Reply): Proxy
    requires i < |s.pairs|
    requires s.phase != Idle && s.winner != -1 ==> 0 <= s.winner < |s.pairs|
  {
    if s.phase == Idle then DrainOne(s, i, k)
    else
      Conclude(Judge(Finish(s, i, Answered(r.isError), Get(s.pairs[i], k).sock.held), i, Get(s.pairs[i], k), r), i, k)
  }

  function NodeFailed(s: Proxy, i: nat, req: nat): (t: Proxy)
    ensures t.lastHeight == s.lastHeight
  {
    AfterFailure(Finish(s.(lastError := i), i, Failed, req))
  }

  function AfterFailure(s: Proxy): Proxy {
    if s.pending > 0 then s
    else RaceComplete(if s.winner == -1 then CloseClient(s) else s)
  }

  /** The failed node's pair has been swapped: retry on the new active connection. */
  function Retry(s: Proxy, i: nat, req: nat): Proxy
    requires i < |s.pairs|
  {
    if Available(s.pairs[i]) then
      Note(s.(pairs := s.pairs[i := SendIfAvailable(s.pairs[i], s.req)]), Resent(i))
    else NodeFailed(s, i, req)
  }

  /** `on_upstream_error`; the connection is already disconnected. */
  function OnError(s: Proxy, i: nat, k: Slot): Proxy
    requires i < |s.pairs| == |s.retried|
  {
    if s.phase == Idle then DrainOne(s, i, k)
    else if s.retried[i] then NodeFailed(s, i, Get(s.pairs[i], k).req)
    else
      Retry(s.(pairs := s.pairs[i := ReportError(s.pairs[i])], retried := s.retried[i := true]), i,
            Get(s.pairs[i], k).req)
  }

  function DrainAll(p: Pair): Pair {
    if InFlight(Active(p)) then Put(p, p.active, Reset(Active(p))) else p
  }

  function DrainEverything(s: Proxy): Proxy {
    s.(pairs := seq(|s.pairs|, i requires 0 <= i < |s.pairs| => DrainAll(s.pairs[i])), timer := false)
  }

  function BestOnTimeout(s: Proxy): (t: Proxy)
    ensures SameRace(s, t) && t.lastHeight >= s.lastHeight
  {
    if s.winner == -1 && IsGbtRace(s) && 0 <= s.bestNode < |s.pairs| &&
       (Active(s.pairs[s.bestNode]).state == Connected || Active(s.pairs[s.bestNode]).state == Receiving)
    then WinGbt(s, s.bestNode, s.bestHeight, Active(s.pairs[s.bestNode]))
    else s
  }

  function Expire(s: Proxy): Proxy {
    RaceComplete(if s.winner == -1 then CloseClient(s) else s)
  }

  /** `rpc_timeout_cb`. */
  function OnTimeout(s: Proxy): Proxy {
    if s.phase == Idle then DrainEverything(s)
    else Expire(BestOnTimeout(Note(s.(pending := 0), TimedOut)))
  }

  /** The timer that fired may be one whose descriptor was overwritten. */
  function Fired(s: Proxy, stale: bool): Proxy {
    if stale && s.leaked > 0 then s.(leaked := s.leaked - 1) else s
  }

  function OnNotify(s: Proxy): Proxy { Note(s.(stickyNode := -1, notifyPending := true), Notified) }

  // ---------------------------------------------------------------- events and runs

  /** One callback of the event loop.  `timerOk`: whether a timeout timer could be created;
      `got` and `torn`: how many answers the read completed and whether it left a part of
      another one. */
  datatype Event =
    | ClientConnects
    | ClientLeaves
    | Request(rpc: Method, timerOk: bool)
    | SendPart(node: nat, slot: Slot)
    | SendDone(node: nat, slot: Slot)
    | PartialData(node: nat, slot: Slot, close: bool)
    | Response(node: nat, slot: Slot, reply: Reply, got: nat, torn: bool)
    | ConnectionLost(node: nat, slot: Slot)
    | ConnectDone(node: nat, slot: Slot, ok: bool)
    | RotationTimer(node: nat, outcome: ConnectOutcome)
    | Timeout(stale: bool)
    | BlockNotify

  predicate OnSlot(e: Event) {
    e.SendPart? || e.SendDone? || e.PartialData? || e.Response? || e.ConnectionLost? || e.ConnectDone?
  }

  predicate WellFormed(s: Proxy) {
    && |s.retried| == |s.pairs|
    && StickyValid(s)
    && (s.phase != Idle && s.winner != -1 ==> 0 <= s.winner < |s.pairs|)
  }

  /** Which callbacks the event loop can deliver in a state.  Once a connection holds its
      complete response, every further read reports that response again. */
  predicate Enabled(s: Proxy, e: Event) {
    if OnSlot(e) then
      e.node < |s.pairs| &&
      var c := Get(s.pairs[e.node], e.slot);
      match e
      case SendPart(_, _) => c.state == Sending
      case SendDone(_, _) => c.state == Sending
      case PartialData(_, _, _) => c.state == Receiving && c.reply == None
      case Response(_, _, r, got, _) => c.state == Receiving && if c.reply.Some? then r == c.reply.value else got > 0
      case ConnectionLost(_, _) => c.state != Disconnected
      case _ => c.state == Connecting
    else match e
      case Request(_, _) => s.client
      case RotationTimer(i, _) => i < |s.pairs|
      case Timeout(stale) => if stale then s.leaked > 0 else s.timer
      case _ => true
  }

  function SendSome(c: Conn): Conn { c.(sock := SocketTorn(c.sock)) }

  function TakeData(c: Conn, close: bool): Conn {
    c.(recv := true, closing := c.closing || close, sock := SocketTorn(c.sock))
  }

  function TakeReply(c: Conn, r: Reply, got: nat, torn: bool): Conn {
    c.(recv := true, reply := Some(r), closing := r.close, sock := SocketRead(c.sock, c.reply == None, got, torn))
  }

  function Lose(s: Proxy, i: nat, k: Slot): Proxy
    requires i < |s.pairs| == |s.retried|
  {
    if InFlight(Get(s.pairs[i], k)) then
      OnError(PutConn(s, i, k, Get(s.pairs[i], k).(state := Disconnected)), i, k)
    else PutConn(s, i, k, Get(s.pairs[i], k).(state := Disconnected))
  }

  function ConnectEnds(p: Pair, k: Slot, ok: bool): Pair {
    if ok then OnConnected(Put(p, k, Get(p, k).(state := Connected)), k)
    else Put(p, k, Get(p, k).(state := Disconnected))
  }

  function Step(s: Proxy, e: Event): Proxy
    requires WellFormed(s) && Enabled(s, e)
  {
    match e
    case ClientConnects => s.(client := true)
    case ClientLeaves => s.(client := false)
    case Request(m, timerOk) => ClientRequest(s, m, timerOk)
    case SendPart(i, k) => PutConn(s, i, k, SendSome(Get(s.pairs[i], k)))
    case SendDone(i, k) => PutConn(s, i, k, SendComplete(Get(s.pairs[i], k)))
    case PartialData(i, k, close) => PutConn(s, i, k, TakeData(Get(s.pairs[i], k), close))
    case Response(i, k, r, got, torn) =>
      OnResponse(PutConn(s, i, k, TakeReply(Get(s.pairs[i], k), r, got, torn)), i, k, r)
    case ConnectionLost(i, k) => Lose(s, i, k)
    case ConnectDone(i, k, ok) => s.(pairs := s.pairs[i := ConnectEnds(s.pairs[i], k, ok)])
    case RotationTimer(i, o) => s.(pairs := s.pairs[i := Rotate(s.pairs[i], o)])
    case Timeout(stale) => OnTimeout(Fired(s, stale))
    case BlockNotify => OnNotify(s)
  }

  /** The proxy after `rpc_proxy_create`, given how the first connect attempts went. */
  function Init(connects: seq<(ConnectOutcome, ConnectOutcome)>): Proxy {
    Proxy(Idle, -1, 0, false, 0, -1, -1, false, -1, -1, false, false, OtherMethod,
          seq(|connects|, i requires 0 <= i < |connects| => InitPair(connects[i].0, connects[i].1)),
          NoRetries(|connects|), false, 0, 0, [])
  }
}
