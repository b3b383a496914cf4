/**
  The connections, pairs and proxy as the mutable objects they are in the source.  Every
  callback is proved to change the object state exactly as the step function of the same
  name in `RaceModel` changes its value, so the theorems about runs speak about this code.
 */
module RpcProxyObjects {
  import opened Options
  import opened RaceModel
  import RaceSafety

  // ---------------------------------------------------------------- src/rpc_conn.c

  class RpcConn {
    var state: ConnState
    var loaded: bool
    var recv: bool
    var reply: Option<Reply>
    var closing: bool
    var standbyCb: bool
    ghost var req: nat
    ghost var sock: Socket

    ghost function View(): Conn
      reads this
    {
      Conn(state, loaded, recv, reply, closing, standbyCb, req, sock)
    }

    constructor (standby: bool)
      ensures View() == FreshConn.(standbyCb := standby)
    {
      state, loaded, recv, reply, closing, standbyCb := Disconnected, false, false, None, false, standby;
      req, sock := 0, NEW_SOCKET;
    }

    /** `rpc_conn_disconnect` */
    method Disconnect()
      modifies this
      ensures View() == RaceModel.Disconnect(old(View()))
    {
      state, loaded, recv, reply, closing := Disconnected, false, false, None, false;
    }

    /** `rpc_conn_reset` */
    method Reset()
      modifies this
      ensures View() == RaceModel.Reset(old(View()))
    {
      loaded, recv, reply, sock := false, false, None, SocketKept(sock);
      if closing {
        closing := false;
        Disconnect();
      } else if state == Receiving || state == Sending {
        state := Connected;
      }
    }

    /** `rpc_conn_send` */
    method Send(ghost r: nat) returns (ok: bool)
      modifies this
      ensures ok <==> RaceModel.Send(old(View()), r).Some?
      ensures View() == if ok then RaceModel.Send(old(View()), r).value else old(View())
    {
      if state != Connected { return false; }
      loaded, state, req := true, Sending, r;
      return true;
    }

    /** The last byte of the request is out: the `CONN_SENDING` case of `conn_epoll_cb`. */
    method SendComplete()
      modifies this
      ensures View() == RaceModel.SendComplete(old(View()))
    {
      state, recv, reply, closing, sock := Receiving, false, None, false, SocketSent(sock, req);
    }
  }

  // ---------------------------------------------------------------- src/conn_pair.c

  class ConnPair {
    const slot0: RpcConn
    const slot1: RpcConn
    var active: Slot
    var swapRequired: bool

    ghost predicate Valid() { slot0 != slot1 }

    ghost function View(): Pair
      reads this, slot0, slot1
    {
      Pair(slot0.View(), slot1.View(), active, swapRequired)
    }

    function At(k: Slot): RpcConn { if k == 0 then slot0 else slot1 }

    /** `conn_pair_tick` */
    method Tick()
      modifies this
      ensures View() == RaceModel.Tick(old(View()))
    {
      if !swapRequired { return; }
      if At(active).state != Connected { return; }
      if At(1 - active).state != Connected { return; }
      active := 1 - active;
      swapRequired := false;
    }

    /** `conn_pair_report_error` */
    method ReportError() returns (available: bool)
      requires Valid()
      modifies this, slot0, slot1
      ensures View() == RaceModel.ReportError(old(View()))
      ensures available == Available(View())
    {
      var oldActive := active;
      active := 1 - active;
      At(oldActive).Disconnect();
      swapRequired := false;
      available := At(active).state == Connected;
    }

    /** `standby_on_connected` */
    method StandbyOnConnected(k: Slot)
      modifies this
      ensures View() == RaceModel.StandbyOnConnected(old(View()), k)
    {
      if k == active { return; }
      var s := At(active).state;
      if s != Connected && s != Sending && s != Receiving {
        active := k;
        swapRequired := false;
        return;
      }
      Tick();
    }

    /** `rpc_conn_connect` on a slot, with the connect's outcome given. */
    method Connect(k: Slot, o: ConnectOutcome)
      requires Valid()
      modifies this, slot0, slot1
      ensures View() == RaceModel.Connect(old(View()), k, o)
    {
      var c := At(k);
      if c.state != Disconnected || o == Refused { return; }
      if o == InProgress {
        c.state, c.sock := Connecting, NEW_SOCKET;
      } else {
        c.state, c.sock := Connected, NEW_SOCKET;
        if c.standbyCb { StandbyOnConnected(k); }
      }
    }

    /** `refresh_standby` */
    method RefreshStandby(o: ConnectOutcome)
      requires Valid()
      modifies this, slot0, slot1
      ensures View() == RaceModel.RefreshStandby(old(View()), o)
    {
      var k := 1 - active;
      var standby := At(k);
      if standby.state == Connected || standby.state == Disconnected {
        if standby.state == Connected { standby.Disconnect(); }
        standby.standbyCb := true;
        Connect(k, o);
      }
    }

    /** `rotation_timer_cb` */
    method Rotate(o: ConnectOutcome)
      requires Valid()
      modifies this, slot0, slot1
      ensures View() == RaceModel.Rotate(old(View()), o)
    {
      RefreshStandby(o);
      swapRequired := true;
      Tick();
    }

    /** `conn_pair_init` */
    constructor (o0: ConnectOutcome, o1: ConnectOutcome)
      ensures Valid() && fresh(slot0) && fresh(slot1) && View() == InitPair(o0, o1)
    {
      slot0 := new RpcConn(false);
      slot1 := new RpcConn(true);
      active, swapRequired := 0, false;
      new;
      Connect(0, o0);
      Connect(1, o1);
    }
  }

  // ---------------------------------------------------------------- src/rpc_proxy.c

  class RpcProxy {
    const pairs: seq<ConnPair>
    var phase: Phase
    var stickyNode: int
    var lastHeight: int
    var notifyPending: bool
    var pending: int
    var winner: int
    var lastError: int
    var allMustComplete: bool
    var bestHeight: int
    var bestNode: int
    var heightMatched: bool
    var client: bool
    var rpc: Method
    var retried: seq<bool>
    var timer: bool
    ghost var leaked: nat
    ghost var req: nat
    ghost var log: seq<Entry>

    ghost const parts: set<object>  // the pairs and their slots

    /** The pairs and their slots are different objects. */
    ghost predicate Separate() {
      && this !in parts
      && (forall i :: 0 <= i < |pairs| ==> pairs[i].Valid())
      && (forall i :: 0 <= i < |pairs| ==> pairs[i] in parts && pairs[i].slot0 in parts && pairs[i].slot1 in parts)
      && (forall i, j :: 0 <= i < j < |pairs| ==>
            && pairs[i] != pairs[j]
            && pairs[i].slot0 != pairs[j].slot0 && pairs[i].slot0 != pairs[j].slot1
            && pairs[i].slot1 != pairs[j].slot0 && pairs[i].slot1 != pairs[j].slot1)
    }

    ghost function Views(): (v: seq<Pair>)
      requires Separate()
      reads parts
      ensures |v| == |pairs|
    {
      seq(|pairs|, i requires 0 <= i < |pairs| && Separate() reads parts => pairs[i].View())
    }

    ghost function View(): Proxy
      requires Separate()
      reads this, parts
    {
      Proxy(phase, stickyNode, lastHeight, notifyPending, pending, winner, lastError, allMustComplete,
            bestHeight, bestNode, heightMatched, client, rpc, Views(), retried, timer, leaked, req, log)
    }

    /** The first loop of `race_complete`. */
    method ResetParticipants()
      requires Separate()
      modifies parts
      ensures Views() == seq(|pairs|, i requires 0 <= i < |pairs| => ResetParticipant(old(Views())[i]))
    {
      for i := 0 to |pairs|
        invariant forall j :: 0 <= j < i ==> pairs[j].View() == ResetParticipant(old(pairs[j].View()))
        invariant forall j :: i <= j < |pairs| ==> pairs[j].View() == old(pairs[j].View())
      {
        var c := pairs[i].At(pairs[i].active);
        if c.loaded || c.state == Receiving || c.state == Sending { c.Reset(); }
      }
    }

    /** The second loop of `race_complete`. */
    method TickAll()
      requires Separate()
      modifies parts
      ensures Views() == seq(|pairs|, i requires 0 <= i < |pairs| => Tick(old(Views())[i]))
    {
      for i := 0 to |pairs|
        invariant forall j :: 0 <= j < i ==> pairs[j].View() == Tick(old(pairs[j].View()))
        invariant forall j :: i <= j < |pairs| ==> pairs[j].View() == old(pairs[j].View())
      {
        pairs[i].Tick();
      }
    }

    /** The fields that `race_complete` clears. */
    method ClearRace()
      requires Separate()
      modifies this
      ensures View() == Note(old(View()).(timer := false, phase := Idle, pending := 0, winner := -1, lastError := -1,
                                          bestHeight := -1, bestNode := -1, heightMatched := false), RaceOver)
    {
      ClearChoice();
      ghost var v := Views();
      timer, phase, pending, log := false, Idle, 0, log + [RaceOver];
      assert Views() == v;
      hide Views;
    }

    /** `race_complete` */
    method RaceComplete()
      requires Separate()
      modifies this, parts
      ensures View() == RaceModel.RaceComplete(old(View()))
    {
      ghost var s := View();
      ResetParticipants();
      TickAll();
      assert Views() == RaceModel.RaceComplete(s).pairs;
      hide Views, ResetParticipant, Tick;
      ClearRace();
    }

    /** `close_client`, as the answer to a request */
    method CloseClient()
      requires Separate()
      modifies this
      ensures View() == RaceModel.CloseClient(old(View()))
    {
      client, log := false, log + [ClosedClient];
    }

    /** `send_upstream_response_to_client`; the bytes go out only while a client is connected. */
    method SendToClient(i: nat, c: RpcConn)
      requires Separate()
      modifies this
      ensures View() == Forward(old(View()), i, old(c.View()))
    {
      if c.reply.Some? { log := log + [Forwarded(i, c.sock.held, client)]; }
    }

    method WinGbt(i: nat, height: int, c: RpcConn)
      requires Separate() && c in parts
      modifies this
      ensures View() == RaceModel.WinGbt(old(View()), i, height, old(c.View()))
    {
      ghost var s := View();
      winner, stickyNode := i, i;
      if height > lastHeight { lastHeight := height; }
      assert View() == s.(winner := i, stickyNode := i, lastHeight := Max(s.lastHeight, height)) by {
        assert Views() == old(Views());
      }
      hide Views, Forward;
      SendToClient(i, c);
    }

    /** The height logic of `on_upstream_response`. */
    method GbtSuccess(i: nat, c: RpcConn, height: int)
      requires Separate() && c in parts
      modifies this
      ensures View() == RaceModel.GbtSuccess(old(View()), i, old(c.View()), height)
    {
      hide RaceModel.WinGbt;
      if !heightMatched && height == lastHeight + 1 {
        heightMatched := true;
        WinGbt(i, height, c);
      } else if !heightMatched {
        if height >= bestHeight { bestHeight, bestNode := height, i; }
        if winner == -1 { WinGbt(i, height, c); }
      }
    }

    /** The choice made by `on_upstream_response` for a complete response. */
    method Judge(i: nat, c: RpcConn, r: Reply)
      requires Separate() && c in parts
      modifies this
      ensures View() == RaceModel.Judge(old(View()), i, old(c.View()), r)
    {
      hide RaceModel.GbtSuccess, Forward;
      if r.isError {
        lastError := i;
      } else if rpc == GetBlockTemplate && phase == Fanout {
        GbtSuccess(i, c, r.height);
      } else if winner == -1 {
        winner := i;
        SendToClient(i, c);
      }
    }

    method FallbackChoice()
      requires Separate()
      modifies this
      ensures View() == RaceModel.FallbackChoice(old(View()))
    {
      hide RaceModel.WinGbt, Forward;
      if rpc == GetBlockTemplate && phase == Fanout && 0 <= bestNode < |pairs| {
        var best := pairs[bestNode].At(pairs[bestNode].active);
        if best.recv { WinGbt(bestNode, bestHeight, best); }
      } else if 0 <= lastError < |pairs| {
        var err := pairs[lastError].At(pairs[lastError].active);
        if err.recv { SendToClient(lastError, err); }
      }
    }

    /** Resets one connection if it carries a request. */
    method ResetIfInFlight(i: nat, k: Slot)
      requires Separate() && i < |pairs|
      modifies parts
      ensures Views() == old(Views())[i := RaceModel.ResetIfInFlight(old(Views())[i], k)]
    {
      var c := pairs[i].At(k);
      if c.state == Receiving || c.state == Sending { c.Reset(); }
    }

    method LeaveEarly(i: nat, k: Slot)
      requires Separate() && i < |pairs| && 0 <= winner < |pairs|
      modifies this, parts
      ensures View() == RaceModel.LeaveEarly(old(View()), i, k)
    {
      phase := Idle;
      hide RaceModel.ResetIfInFlight;
      ResetIfInFlight(winner, pairs[winner].active);
      ResetIfInFlight(i, k);
    }

    /** Is a request still being carried by an active connection? */
    method StillDraining() returns (draining: bool)
      requires Separate()
      ensures draining == AnyInFlight(Views())
    {
      for i := 0 to |pairs|
        invariant forall j :: 0 <= j < i ==> !InFlight(Active(Views()[j]))
      {
        var c := pairs[i].At(pairs[i].active);
        if c.state == Receiving || c.state == Sending {
          assert InFlight(Active(Views()[i]));
          return true;
        }
      }
      return false;
    }

    method ResetOne(i: nat, k: Slot)
      requires Separate() && i < |pairs|
      modifies parts
      ensures Views() == old(Views())[i := Put(old(Views())[i], k, Reset(Get(old(Views())[i], k)))]
    {
      pairs[i].At(k).Reset();
    }

    /** A late response or error on an idle proxy. */
    method DrainOne(i: nat, k: Slot)
      requires Separate() && i < |pairs|
      modifies this, parts
      ensures View() == RaceModel.DrainOne(old(View()), i, k)
    {
      hide Reset;
      ResetOne(i, k);
      var draining := StillDraining();
      if !draining { timer := false; }
    }

    method Finish(i: nat, outcome: Outcome, ghost r: nat)
      requires Separate()
      modifies this
      ensures View() == RaceModel.Finish(old(View()), i, outcome, r)
    {
      pending, log := pending - 1, log + [Finished(i, outcome, r)];
    }

    method Conclude(i: nat, k: Slot)
      requires Separate() && i < |pairs| && (winner != -1 ==> 0 <= winner < |pairs|)
      modifies this, parts
      ensures View() == RaceModel.Conclude(old(View()), i, k)
    {
      hide RaceModel.RaceComplete, RaceModel.FallbackChoice, RaceModel.LeaveEarly;
      if pending <= 0 {
        if winner == -1 { FallbackChoice(); }
        RaceComplete();
      } else if !allMustComplete && winner != -1 {
        LeaveEarly(i, k);
      }
    }

    /** `on_upstream_response` */
    method OnResponse(i: nat, k: Slot, r: Reply)
      requires Separate() && i < |pairs|
      requires phase != Idle && winner != -1 ==> 0 <= winner < |pairs|
      modifies this, parts
      ensures View() == RaceModel.OnResponse(old(View()), i, k, r)
    {
      hide RaceModel.DrainOne, RaceModel.Conclude, RaceModel.Judge;
      if phase == Idle {
        DrainOne(i, k);
      } else {
        var c := pairs[i].At(k);
        Finish(i, Answered(r.isError), c.sock.held);
        Judge(i, c, r);
        Conclude(i, k);
      }
    }

    method NodeFailed(i: nat, ghost r: nat)
      requires Separate()
      modifies this, parts
      ensures View() == RaceModel.NodeFailed(old(View()), i, r)
    {
      hide RaceModel.RaceComplete, RaceModel.CloseClient, RaceModel.Finish;
      lastError := i;
      Finish(i, Failed, r);
      if pending <= 0 {
        if winner == -1 { CloseClient(); }
        RaceComplete();
      }
    }

    /** `conn_pair_report_error` on the pair of node `i`, and the retry on its new active
        connection. */
    method SwapAndResend(i: nat) returns (sent: bool)
      requires Separate() && i < |pairs|
      modifies parts
      ensures sent == Available(ReportError(old(Views())[i]))
      ensures Views() == old(Views())[i := if sent then SendIfAvailable(ReportError(old(Views())[i]), req)
                                            else ReportError(old(Views())[i])]
    {
      sent := pairs[i].ReportError();
      if sent { sent := pairs[i].At(pairs[i].active).Send(req); }
    }

    /** `on_upstream_error` */
    method OnError(i: nat, k: Slot)
      requires Separate() && i < |pairs| == |retried|
      modifies this, parts
      ensures View() == RaceModel.OnError(old(View()), i, k)
    {
      hide RaceModel.DrainOne, RaceModel.NodeFailed, ReportError, SendIfAvailable, Active;
      if phase == Idle {
        DrainOne(i, k);
        return;
      }
      ghost var r := pairs[i].At(k).req;
      if retried[i] {
        NodeFailed(i, r);
      } else {
        Retry(i, r);
      }
    }

    /** The single retry of `on_upstream_error`, and the failure if nothing could be sent. */
    method Retry(i: nat, ghost r: nat)
      requires Separate() && i < |pairs| == |retried|
      modifies this, parts
      ensures var s := old(View());
              View() == RaceModel.Retry(s.(pairs := s.pairs[i := ReportError(s.pairs[i])], retried := s.retried[i := true]), i, r)
    {
      hide RaceModel.NodeFailed, ReportError, SendIfAvailable;
      var sent := SwapAndResend(i);
      retried := retried[i := true];
      if sent {
        log := log + [Resent(i)];
      } else {
        NodeFailed(i, r);
      }
    }

    /** The drain branch of `rpc_timeout_cb`. */
    method DrainEverything()
      requires Separate()
      modifies this, parts
      ensures View() == RaceModel.DrainEverything(old(View()))
    {
      ghost var s := View();
      for i := 0 to |pairs|
        modifies parts
        invariant forall j :: 0 <= j < i ==> pairs[j].View() == DrainAll(old(pairs[j].View()))
        invariant forall j :: i <= j < |pairs| ==> pairs[j].View() == old(pairs[j].View())
      {
        var c := pairs[i].At(pairs[i].active);
        if c.state == Receiving || c.state == Sending { c.Reset(); }
      }
      assert Views() == RaceModel.DrainEverything(s).pairs;
      hide Views, DrainAll;
      timer := false;
    }

    method BestOnTimeout()
      requires Separate()
      modifies this
      ensures View() == RaceModel.BestOnTimeout(old(View()))
    {
      hide RaceModel.WinGbt;
      if winner == -1 && rpc == GetBlockTemplate && phase == Fanout && 0 <= bestNode < |pairs| {
        var best := pairs[bestNode].At(pairs[bestNode].active);
        if best.state == Connected || best.state == Receiving { WinGbt(bestNode, bestHeight, best); }
      }
    }

    /** `rpc_timeout_cb` */
    method OnTimeout()
      requires Separate()
      modifies this, parts
      ensures View() == RaceModel.OnTimeout(old(View()))
    {
      hide RaceModel.DrainEverything, RaceModel.BestOnTimeout, RaceModel.RaceComplete, RaceModel.CloseClient;
      if phase == Idle {
        DrainEverything();
        return;
      }
      pending, log := 0, log + [TimedOut];
      BestOnTimeout();
      if winner == -1 { CloseClient(); }
      RaceComplete();
    }

    /** `rpc_proxy_on_block_notify` */
    method OnNotify()
      requires Separate()
      modifies this
      ensures View() == RaceModel.OnNotify(old(View()))
    {
      stickyNode, notifyPending, log := -1, true, log + [Notified];
    }

    // -------------------------------------------------------------- dispatch

    /** `classify_method` */
    method ClassifyMethod() returns (route: Route)
      requires Separate()
      modifies this
      ensures route == Classify(old(View())) && View() == ClassifyState(old(View()))
    {
      match rpc
      case GetBlockTemplate =>
        if notifyPending || stickyNode == -1 {
          notifyPending := false;
          return Race;
        }
        return ToSticky;
      case SubmitBlock => return Broadcast;
      case SendRawTransaction => return Broadcast;
      case PreciousBlock => return ToSticky;
      case ValidateAddress => return Race;
      case DecodeRawTransaction => return Race;
      case OtherMethod => return Race;
    }

    /** The loop of `dispatch_fanout`. */
    method SendToAll(ghost r: nat) returns (sent: nat)
      requires Separate()
      modifies parts, this`log
      ensures Views() == seq(|pairs|, i requires 0 <= i < |pairs| => SendIfAvailable(old(Views())[i], r))
      ensures log == old(log) + SentEntries(Targets(old(Views()), |pairs|))
      ensures sent == |Targets(old(Views()), |pairs|)|
    {
      ghost var nodes;
      hide SendIfAvailable, Targets, SentEntries;
      sent, nodes := SendLoop(r);
      ghost var v := Views();
      hide Views;
      log := log + SentEntries(nodes);
      assert Views() == v;
    }

    method SendLoop(ghost r: nat) returns (sent: nat, ghost nodes: seq<nat>)
      requires Separate()
      modifies parts
      ensures Views() == seq(|pairs|, i requires 0 <= i < |pairs| => SendIfAvailable(old(Views())[i], r))
      ensures nodes == Targets(old(Views()), |pairs|) && sent == |nodes|
    {
      hide SendIfAvailable, Available;
      sent, nodes := 0, [];
      ghost var v := Views();
      for i := 0 to |pairs|
        invariant forall j :: 0 <= j < i ==> pairs[j].View() == SendIfAvailable(v[j], r)
        invariant forall j :: i <= j < |pairs| ==> pairs[j].View() == v[j]
        invariant nodes == Targets(v, i) && sent == |nodes|
      {
        var ok := TrySend(i, r);
        if ok {
          sent := sent + 1;
          nodes := nodes + [i];
        }
      }
    }

    /** One round of the loop of `dispatch_fanout`. */
    method TrySend(i: nat, ghost r: nat) returns (ok: bool)
      requires Separate() && i < |pairs|
      modifies parts
      ensures ok == Available(old(pairs[i].View()))
      ensures pairs[i].View() == SendIfAvailable(old(pairs[i].View()), r)
      ensures forall j :: 0 <= j < |pairs| && j != i ==> pairs[j].View() == old(pairs[j].View())
    {
      var c := pairs[i].At(pairs[i].active);
      ok := false;
      if c.state == Connected { ok := c.Send(r); }
    }

    /** `dispatch_fanout` */
    method DispatchFanout()
      requires Separate()
      modifies this, parts
      ensures View() == RaceModel.DispatchFanout(old(View()))
    {
      ghost var s := View();
      var sent := SendToAll(req);
      assert Views() == RaceModel.DispatchFanout(s).pairs;
      hide Views, SendIfAvailable, Targets, SentEntries;
      retried, pending := seq(|pairs|, _ => false), sent;
    }

    /** `start_rpc_timeout`; `timerOk` tells whether a timer could be created. */
    method StartTimer(timerOk: bool)
      requires Separate()
      modifies this
      ensures View() == RaceModel.StartTimer(old(View()), timerOk)
    {
      if timerOk {
        if timer { leaked := leaked + 1; }
        timer := true;
      }
    }

    method FanoutOrClose(timerOk: bool)
      requires Separate()
      modifies this, parts
      ensures View() == RaceModel.FanoutOrClose(old(View()), timerOk)
    {
      hide RaceModel.DispatchFanout, RaceModel.CloseClient, RaceModel.StartTimer;
      DispatchFanout();
      if pending <= 0 {
        CloseClient();
        phase := Idle;
      } else {
        StartTimer(timerOk);
      }
    }

    method SendSticky()
      requires Separate() && 0 <= stickyNode < |pairs| && Available(Views()[stickyNode])
      modifies this, parts
      ensures View() == RaceModel.SendSticky(old(View()))
    {
      ghost var s := View();
      var sent := TrySend(stickyNode, req);
      assert Views() == RaceModel.SendSticky(s).pairs;
      hide Views, SendIfAvailable;
      retried, pending, log := seq(|pairs|, _ => false), 1, log + [Sent(stickyNode)];
    }

    method BecomeFanout()
      requires Separate()
      modifies this
      ensures View() == old(View()).(phase := Fanout, allMustComplete := false, bestHeight := -1,
                                     bestNode := -1, heightMatched := false)
    {
      ghost var v := Views();
      phase, allMustComplete, bestHeight, bestNode, heightMatched := Fanout, false, -1, -1, false;
      assert Views() == v;
      hide Views;
    }

    method StickyFallback(timerOk: bool)
      requires Separate()
      modifies this, parts
      ensures View() == RaceModel.StickyFallback(old(View()), timerOk)
    {
      hide RaceModel.FanoutOrClose, RaceModel.CloseClient;
      if rpc == PreciousBlock {
        CloseClient();
        phase := Idle;
      } else {
        BecomeFanout();
        FanoutOrClose(timerOk);
      }
    }

    /** `dispatch_sticky` */
    method DispatchSticky(timerOk: bool)
      requires Separate() && (stickyNode == -1 || 0 <= stickyNode < |pairs|)
      modifies this, parts
      ensures View() == RaceModel.DispatchSticky(old(View()), timerOk)
    {
      hide RaceModel.StickyFallback, RaceModel.SendSticky, RaceModel.StartTimer;
      if stickyNode == -1 || pairs[stickyNode].At(pairs[stickyNode].active).state != Connected {
        retried := seq(|pairs|, _ => false);
        StickyFallback(timerOk);
      } else {
        SendSticky();
        StartTimer(timerOk);
      }
    }

    method ClearChoice()
      requires Separate()
      modifies this
      ensures View() == old(View()).(winner := -1, lastError := -1, bestHeight := -1, bestNode := -1,
                                     heightMatched := false)
    {
      ghost var v := Views();
      winner, lastError, bestHeight, bestNode, heightMatched := -1, -1, -1, -1, false;
      assert Views() == v;
      hide Views;
    }

    /** The resets at the head of each case of the dispatch switch of `client_cb`. */
    method Begin(route: Route)
      requires Separate()
      modifies this
      ensures View() == RaceModel.Begin(old(View()), route) && stickyNode == old(stickyNode)
    {
      ClearChoice();
      ghost var v := Views();
      phase, allMustComplete, log :=
        if route == ToSticky then Sticky else Fanout, route == Broadcast, log + [Routed(rpc, route)];
      assert Views() == v;
      hide Views;
    }

    /** `client_cb` for one complete request */
    method ClientRequest(m: Method, timerOk: bool)
      requires Separate() && StickyValid(View())
      modifies this, parts
      ensures View() == RaceModel.ClientRequest(old(View()), m, timerOk)
    {
      hide RaceModel.Begin, RaceModel.DispatchSticky, RaceModel.FanoutOrClose, Classify;
      if phase != Idle { return; }
      rpc, req := m, req + 1;
      var route := ClassifyMethod();
      Begin(route);
      if phase == Sticky { DispatchSticky(timerOk); } else { FanoutOrClose(timerOk); }
    }

    // -------------------------------------------------------------- the event loop

    /** Connection `(i, k)` has become `c`; nothing else has changed. */
    ghost predicate OneConn(before: seq<Pair>, after: seq<Pair>, i: nat, k: Slot, c: Conn)
      requires i < |before|
    {
      after == before[i := Put(before[i], k, c)]
    }

    method TakeBytes(i: nat, k: Slot, close: bool)
      requires Separate() && i < |pairs|
      modifies parts
      ensures OneConn(old(Views()), Views(), i, k, TakeData(Get(old(Views())[i], k), close))
    {
      var c := pairs[i].At(k);
      c.recv, c.closing, c.sock := true, c.closing || close, SocketTorn(c.sock);
    }

    method TakeResponse(i: nat, k: Slot, r: Reply, ghost got: nat, ghost torn: bool)
      requires Separate() && i < |pairs|
      modifies parts
      ensures OneConn(old(Views()), Views(), i, k, TakeReply(Get(old(Views())[i], k), r, got, torn))
    {
      var c := pairs[i].At(k);
      c.sock := SocketRead(c.sock, c.reply == None, got, torn);
      c.recv, c.reply, c.closing := true, Some(r), r.close;
    }

    method Drop(i: nat, k: Slot) returns (carried: bool)
      requires Separate() && i < |pairs|
      modifies parts
      ensures carried == InFlight(Get(old(Views())[i], k))
      ensures OneConn(old(Views()), Views(), i, k, Get(old(Views())[i], k).(state := Disconnected))
    {
      var c := pairs[i].At(k);
      carried := c.state == Sending || c.state == Receiving;
      c.state := Disconnected;
    }

    /** `send` took a part of the request; only the record of the socket changes. */
    method RequestPartlyOut(i: nat, k: Slot)
      requires Separate() && i < |pairs|
      modifies parts
      ensures OneConn(old(Views()), Views(), i, k, SendSome(Get(old(Views())[i], k)))
    {
      ghost var c := pairs[i].At(k);
      c.sock := SocketTorn(c.sock);
    }

    method RequestOut(i: nat, k: Slot)
      requires Separate() && i < |pairs|
      modifies parts
      ensures OneConn(old(Views()), Views(), i, k, SendComplete(Get(old(Views())[i], k)))
    {
      pairs[i].At(k).SendComplete();
    }

    method ConnectEnded(i: nat, k: Slot, ok: bool)
      requires Separate() && i < |pairs|
      modifies parts
      ensures Views() == old(Views())[i := ConnectEnds(old(Views())[i], k, ok)]
    {
      var c := pairs[i].At(k);
      if ok {
        c.state := Connected;
        if c.standbyCb { pairs[i].StandbyOnConnected(k); }
      } else {
        c.state := Disconnected;
      }
    }

    method RotatePair(i: nat, o: ConnectOutcome)
      requires Separate() && i < |pairs|
      modifies parts
      ensures Views() == old(Views())[i := Rotate(old(Views())[i], o)]
    {
      pairs[i].Rotate(o);
    }

    /** The events that `conn_epoll_cb` and the rotation timer handle. */
    method DeliverToSlot(e: Event)
      requires Separate() && WellFormed(View()) && Enabled(View(), e)
      requires OnSlot(e) || e.RotationTimer?
      modifies this, parts
      ensures View() == Step(old(View()), e)
    {
      hide RaceModel.OnResponse, RaceModel.OnError, RaceModel.ClientRequest, RaceModel.OnTimeout, RaceModel.OnNotify;
      hide ConnectEnds, Rotate, SendSome, SendComplete, TakeData, TakeReply;
      match e
      case SendPart(i, k) => RequestPartlyOut(i, k);
      case SendDone(i, k) => RequestOut(i, k);
      case PartialData(i, k, close) => TakeBytes(i, k, close);
      case Response(i, k, r, got, torn) =>
        TakeResponse(i, k, r, got, torn);
        OnResponse(i, k, r);
      case ConnectionLost(i, k) =>
        var carried := Drop(i, k);
        if carried { OnError(i, k); }
      case ConnectDone(i, k, ok) => ConnectEnded(i, k, ok);
      case RotationTimer(i, o) => RotatePair(i, o);
    }

    method TimerFired(stale: bool)
      requires Separate()
      modifies this
      ensures View() == Fired(old(View()), stale)
    {
      if stale && leaked > 0 { leaked := leaked - 1; }
    }

    method SetClient(connected: bool)
      requires Separate()
      modifies this
      ensures View() == old(View()).(client := connected)
    {
      client := connected;
    }

    /** The events of the client, the timeout timer and the notifier. */
    method DeliverToProxy(e: Event)
      requires Separate() && WellFormed(View()) && Enabled(View(), e)
      requires !OnSlot(e) && !e.RotationTimer?
      modifies this, parts
      ensures View() == Step(old(View()), e)
    {
      hide RaceModel.ClientRequest, RaceModel.OnTimeout, RaceModel.OnNotify, RaceModel.OnResponse, Lose, ConnectEnds, Rotate;
      hide Fired, View, Views;
      match e
      case ClientConnects => SetClient(true);
      case ClientLeaves => SetClient(false);
      case Request(m, timerOk) => ClientRequest(m, timerOk);
      case Timeout(stale) =>
        TimerFired(stale);
        OnTimeout();
      case BlockNotify => OnNotify();
    }

    /** Every callback the event loop can deliver. */
    method Deliver(e: Event)
      requires Separate() && WellFormed(View()) && Enabled(View(), e)
      modifies this, parts
      ensures View() == Step(old(View()), e)
    {
      hide Step;
      if OnSlot(e) || e.RotationTimer? { DeliverToSlot(e); } else { DeliverToProxy(e); }
    }

    /** A whole run of the event loop on the live objects: it ends in the state the value
        model computes, and that state satisfies the invariant of every reachable state. */
    method Serve(run: seq<Event>)
      requires Separate() && RaceSafety.Inv(View()) && RaceSafety.Legal(View(), run)
      modifies this, parts
      ensures View() == RaceSafety.Run(old(View()), run) && RaceSafety.Inv(View())
    {
      ghost var s := View();
      hide Step, Enabled, RaceSafety.InvFor;
      for j := 0 to |run|
        invariant RaceSafety.Inv(View()) && RaceSafety.Legal(View(), run[j..])
        invariant RaceSafety.Run(View(), run[j..]) == RaceSafety.Run(s, run)
      {
        RaceSafety.StepKeeps(View(), run[j]);
        assert run[j..][0] == run[j] && run[j..][1..] == run[j + 1..];
        Deliver(run[j]);
      }
    }

    /** `rpc_proxy_create` */
    constructor (connects: seq<(ConnectOutcome, ConnectOutcome)>)
      ensures Separate() && fresh(parts) && View() == Init(connects)
    {
      var ps: seq<ConnPair> := [];
      ghost var owned: set<object> := {};
      for i := 0 to |connects|
        invariant |ps| == i && fresh(owned)
        invariant forall j :: 0 <= j < i ==> ps[j] in owned && ps[j].slot0 in owned && ps[j].slot1 in owned
        invariant forall j :: 0 <= j < i ==> ps[j].Valid() && ps[j].View() == InitPair(connects[j].0, connects[j].1)
        invariant forall a, b :: 0 <= a < b < i ==>
                    && ps[a] != ps[b]
                    && ps[a].slot0 != ps[b].slot0 && ps[a].slot0 != ps[b].slot1
                    && ps[a].slot1 != ps[b].slot0 && ps[a].slot1 != ps[b].slot1
      {
        hide InitPair;
        var p := new ConnPair(connects[i].0, connects[i].1);
        ps := ps + [p];
        owned := owned + {p, p.slot0, p.slot1};
      }
      pairs := ps;
      parts := owned;
      phase, stickyNode, lastHeight, notifyPending, pending, winner, lastError := Idle, -1, 0, false, 0, -1, -1;
      allMustComplete, bestHeight, bestNode, heightMatched, client, rpc := false, -1, -1, false, false, OtherMethod;
      retried, timer, leaked, req, log := seq(|connects|, _ => false), false, 0, 0, [];
    }
  }
}
