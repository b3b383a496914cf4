/**
  When the answers read from the sockets belong to the requests being served, seen from
  outside: in a `Calm` run every event is timely.  Where one of its conditions fails, the
  client can get the answer to an older request.
 */
module RaceSockets {
  import opened Options
  import opened RaceModel
  import opened RaceLog
  import opened RaceSafety
  import opened RaceRefinement

  // ---------------------------------------------------------------- calm events

  /** What the environment is asked for: no timer fires, nothing is in flight when a request
      is dispatched, a node sends nothing but the one answer, and a connection that has
      answered stays up while the race lasts. */
  predicate Calm(s: Proxy, e: Event)
    requires Enabled(s, e)
  {
    && Settled(s, e)
    && !e.Timeout?
    && (e.Response? ==> !Done(Get(s.pairs[e.node], e.slot)) && e.got == 1 && !e.torn)
    && (e.ConnectionLost? && s.phase != Idle ==> !Done(Get(s.pairs[e.node], e.slot)))
  }

  /** The socket owes exactly the answer that the connection waits for. */
  predicate SockOk(c: Conn) {
    match c.state
    case Disconnected => true
    case Connecting => c.sock.owed == [] && !c.sock.garbled && !c.sock.torn
    case Connected => c.sock.owed == [] && !c.sock.garbled && !c.sock.torn
    case Sending => c.sock.owed == [] && !c.sock.garbled
    case Receiving =>
      !c.sock.garbled && c.sock.owed == (if c.reply.Some? then [] else [c.req]) && (c.reply.Some? ==> !c.sock.torn)
  }

  predicate PairSocks(p: Pair) { SockOk(p.slot0) && SockOk(p.slot1) }

  predicate SocksOk(pairs: seq<Pair>) { forall i :: 0 <= i < |pairs| ==> PairSocks(pairs[i]) }

  predicate Calmly(s: Proxy) { Genuinely(s, true) && SocksOk(s.pairs) }

  lemma CalmIsTimely(s: Proxy, e: Event)
    requires Calmly(s) && Enabled(s, e) && Calm(s, e)
    ensures Timely(s, e)
  {
    hide Summary, FirstSuccess, Genuine;
    if e.Response? { assert PairSocks(s.pairs[e.node]); }
  }

  // ---------------------------------------------------------------- sockets of one pair

  lemma ResetSock(c: Conn)
    requires SockOk(c) && (InFlight(c) ==> Done(c))
    ensures SockOk(Reset(c))
  {
  }

  lemma PairSockFacts(p: Pair, req: nat)
    requires PairSocks(p)
    ensures PairSocks(SendIfAvailable(p, req)) && PairSocks(ReportError(p)) && PairSocks(Tick(p))
    ensures (InFlight(Active(p)) ==> Done(Active(p))) ==> PairSocks(ResetParticipant(p))
  {
    if InFlight(Active(p)) ==> Done(Active(p)) { ResetSock(Active(p)); }
    hide Reset;
  }

  lemma ConnectSock(p: Pair, k: Slot, o: ConnectOutcome)
    requires PairSocks(p)
    ensures PairSocks(Connect(p, k, o))
  {
  }

  lemma RotateSock(p: Pair, o: ConnectOutcome)
    requires PairSocks(p)
    ensures PairSocks(Rotate(p, o))
  {
    var k := Other(p.active);
    var c := Get(p, k);
    var dropped := if c.state == Connected then Disconnect(c) else c;
    assert PairSocks(Put(p, k, dropped.(standbyCb := true)));
    ConnectSock(Put(p, k, dropped.(standbyCb := true)), k, o);
    hide Connect, SockOk;
  }

  lemma ConnectEndsSock(p: Pair, k: Slot, ok: bool)
    requires PairSocks(p) && Get(p, k).state == Connecting
    ensures PairSocks(ConnectEnds(p, k, ok))
  {
  }

  lemma ConnStepSock(s: Proxy, e: Event)
    requires Enabled(s, e) && OnlyConns(e) && PairSocks(s.pairs[e.node])
    ensures PairSocks(ConnStep(s, e).1)
  {
    hide Rotate, ConnectEnds;
    if e.RotationTimer? {
      RotateSock(s.pairs[e.node], e.outcome);
    } else if e.ConnectDone? {
      ConnectEndsSock(s.pairs[e.node], e.slot, e.ok);
    }
  }

  // ---------------------------------------------------------------- sockets of all pairs

  /** When all nodes that were sent the request have finished, every connection that is still
      in flight holds its answer. */
  lemma AllDone(s: Proxy)
    requires Genuine(s.log) && Summary(s.log).lawful && OwnBut(s.pairs, Summary(s.log), -1, true)
    requires |Summary(s.log).outcomes| == |Summary(s.log).sent|
    ensures forall i :: 0 <= i < |s.pairs| && InFlight(Active(s.pairs[i])) ==> Done(Active(s.pairs[i]))
  {
    GenuineOncePerNode(s.log);
    hide Summary, Genuine;
    AllParticipantsFinished(Summary(s.log));
  }

  lemma RaceCompleteSocks(s: Proxy)
    requires SocksOk(s.pairs)
    requires forall i :: 0 <= i < |s.pairs| && InFlight(Active(s.pairs[i])) ==> Done(Active(s.pairs[i]))
    ensures SocksOk(RaceComplete(s).pairs)
  {
    hide PairSocks, ResetParticipant, Tick;
    forall i | 0 <= i < |s.pairs| ensures PairSocks(RaceComplete(s).pairs[i]) {
      PairSockFacts(s.pairs[i], 0);
      PairSockFacts(ResetParticipant(s.pairs[i]), 0);
    }
  }

  lemma ConcludeSocks(t: Proxy, i: nat, k: Slot)
    requires Judged(t, Summary(t.log), i) && Answering(t, Summary(t.log), i, Active(t.pairs[i]).sock.held, true)
    requires k == t.pairs[i].active && Done(Active(t.pairs[i])) && SocksOk(t.pairs)
    ensures SocksOk(Conclude(t, i, k).pairs)
  {
    hide Summary, FirstSuccess, Genuine, RaceComplete, FallbackChoice;
    if t.pending <= 0 {
      AllDone(t);
      RaceCompleteSocks(if t.winner == -1 then FallbackChoice(t) else t);
    } else if !t.allMustComplete && t.winner != -1 {
      assert PairSocks(t.pairs[i]);
      ResetSock(Active(t.pairs[i]));
    }
  }

  lemma OneSock(pairs: seq<Pair>, i: nat, k: Slot, c: Conn)
    requires SocksOk(pairs) && i < |pairs| && SockOk(c)
    ensures SocksOk(pairs[i := Put(pairs[i], k, c)])
  {
    assert PairSocks(pairs[i]);
    hide SockOk;
  }

  lemma TakeReplySock(c: Conn, r: Reply)
    requires SockOk(c) && c.state == Receiving && c.reply == None
    ensures SockOk(TakeReply(c, r, 1, false)) && Done(TakeReply(c, r, 1, false))
  {
  }

  lemma DrainSocks(t: Proxy, i: nat, k: Slot, r: Reply)
    requires SocksOk(t.pairs) && i < |t.pairs| && t.phase == Idle && Done(Get(t.pairs[i], k))
    ensures SocksOk(OnResponse(t, i, k, r).pairs)
  {
    assert PairSocks(t.pairs[i]);
    ResetSock(Get(t.pairs[i], k));
    OneSock(t.pairs, i, k, Reset(Get(t.pairs[i], k)));
    hide SocksOk, Reset, AnyInFlight, Conclude, Judge;
  }

  lemma RacingSocks(s: Proxy, i: nat, k: Slot, r: Reply)
    requires Genuinely(s, true) && s.phase != Idle
    requires Enabled(s, Response(i, k, r, 1, false)) && Timely(s, Response(i, k, r, 1, false))
    requires var t := PutConn(s, i, k, TakeReply(Get(s.pairs[i], k), r, 1, false));
             SocksOk(t.pairs) && Done(Get(t.pairs[i], k))
    ensures SocksOk(OnResponse(PutConn(s, i, k, TakeReply(Get(s.pairs[i], k), r, 1, false)), i, k, r).pairs)
  {
    ResponseAnswering(s, i, k, r, 1, false, true);
    hide Summary, Conclude, Judge, Finish, SocksOk, TakeReply, Genuinely, Timely, Judged, Answering;
    var t := PutConn(s, i, k, TakeReply(Get(s.pairs[i], k), r, 1, false));
    var c := Get(t.pairs[i], k);
    ConcludeSocks(Judge(Finish(t, i, Answered(r.isError), c.sock.held), i, c, r), i, k);
  }

  lemma ResponseSocks(s: Proxy, i: nat, k: Slot, r: Reply)
    requires Calmly(s) && Enabled(s, Response(i, k, r, 1, false)) && Calm(s, Response(i, k, r, 1, false))
    ensures SocksOk(OnResponse(PutConn(s, i, k, TakeReply(Get(s.pairs[i], k), r, 1, false)), i, k, r).pairs)
  {
    CalmIsTimely(s, Response(i, k, r, 1, false));
    var c := TakeReply(Get(s.pairs[i], k), r, 1, false);
    assert PairSocks(s.pairs[i]);
    TakeReplySock(Get(s.pairs[i], k), r);
    OneSock(s.pairs, i, k, c);
    hide OnResponse, SocksOk, TakeReply, Genuinely, Timely, Done;
    if s.phase == Idle { DrainSocks(PutConn(s, i, k, c), i, k, r); } else { RacingSocks(s, i, k, r); }
  }

  lemma NodeFailedSocks(s: Proxy, i: nat, req: nat)
    requires Inv(s) && s.phase != Idle && i < |s.pairs| && Genuine(s.log) && SocksOk(s.pairs)
    requires var d := Summary(s.log);
             req == s.req && i in d.sent && !NodeFinished(d.outcomes, i) && OwnBut(s.pairs, d, i, true)
    requires !InFlight(Active(s.pairs[i]))
    ensures SocksOk(NodeFailed(s, i, req).pairs)
  {
    FinishAnswering(s.(lastError := i), i, Failed, req, true);
    FinishKeeps(s.(lastError := i), i, Failed, req);
    FinishPairs(s.(lastError := i), i, Failed, req);
    hide Summary, FirstSuccess, Genuine, Finish, RaceComplete;
    var f := Finish(s.(lastError := i), i, Failed, req);
    if f.pending <= 0 {
      AllDone(f);
      RaceCompleteSocks(if f.winner == -1 then CloseClient(f) else f);
    }
  }

  lemma LoseSocks(s: Proxy, i: nat, k: Slot)
    requires Calmly(s) && Enabled(s, ConnectionLost(i, k)) && Calm(s, ConnectionLost(i, k))
    ensures SocksOk(Lose(s, i, k).pairs)
  {
    CalmIsTimely(s, ConnectionLost(i, k));
    assert PairSocks(s.pairs[i]);
    var c := Get(s.pairs[i], k);
    var t := PutConn(s, i, k, c.(state := Disconnected));
    assert SocksOk(t.pairs);
    hide Summary, FirstSuccess, Genuine, NodeFailed, ReportError, SendIfAvailable, Reset;
    if !InFlight(c) {
    } else if s.phase == Idle {
      ResetSock(Get(t.pairs[i], k));
    } else {
      PairsChange(s, t.pairs);
      LoseRaceSocks(s, i, k);
    }
  }

  lemma LoseRaceSocks(s: Proxy, i: nat, k: Slot)
    requires Calmly(s) && s.phase != Idle && i < |s.pairs| && InFlight(Get(s.pairs[i], k))
    requires Get(s.pairs[i], k).req == s.req && !Done(Get(s.pairs[i], k))
    requires SocksOk(PutConn(s, i, k, Get(s.pairs[i], k).(state := Disconnected)).pairs)
    ensures SocksOk(Lose(s, i, k).pairs)
  {
    hide Summary, FirstSuccess, Genuine, NodeFailed, ReportError, SendIfAvailable, PairSocks;
    var req := s.req;
    var t := PutConn(s, i, k, Get(s.pairs[i], k).(state := Disconnected));
    PairsChange(s, t.pairs);
    PairSockFacts(t.pairs[i], s.req);
    if t.retried[i] {
      NodeFailedSocks(t, i, req);
    } else {
      SwapKeeps(t, i);
      PairFacts(t.pairs[i], t.req);
      var r := t.(pairs := t.pairs[i := ReportError(t.pairs[i])], retried := t.retried[i := true]);
      PairSockFacts(r.pairs[i], s.req);
      if !Available(r.pairs[i]) { NodeFailedSocks(r, i, req); }
    }
  }

  lemma FanoutSocks(b: Proxy, timerOk: bool)
    requires SocksOk(b.pairs)
    ensures SocksOk(FanoutOrClose(b, timerOk).pairs)
  {
    hide PairSocks, SendIfAvailable, Targets;
    forall i | 0 <= i < |b.pairs| ensures PairSocks(DispatchFanout(b).pairs[i]) { PairSockFacts(b.pairs[i], b.req); }
  }

  lemma StickySocks(b: Proxy, timerOk: bool)
    requires SocksOk(b.pairs) && StickyValid(b)
    ensures SocksOk(DispatchSticky(b, timerOk).pairs)
  {
    hide FanoutOrClose, DispatchSticky, SendIfAvailable, PairSocks;
    if StickyUp(b) {
      StickySends(b, timerOk);
      PairSockFacts(b.pairs[b.stickyNode], b.req);
    } else {
      StickyFalls(b, timerOk);
      FanoutSocks(FallenBack(b), timerOk);
    }
  }

  lemma RequestSocks(s: Proxy, m: Method, timerOk: bool)
    requires SocksOk(s.pairs) && StickyValid(s)
    ensures SocksOk(ClientRequest(s, m, timerOk).pairs)
  {
    if s.phase == Idle {
      var b := Opened(s, m);
      assert b.pairs == s.pairs && StickyValid(b);
      hide Opened, FanoutOrClose, DispatchSticky, SocksOk;
      FanoutSocks(b, timerOk);
      StickySocks(b, timerOk);
    }
  }

  lemma StepSocks(s: Proxy, e: Event)
    requires Calmly(s) && Enabled(s, e) && Calm(s, e)
    ensures SocksOk(Step(s, e).pairs)
  {
    hide Summary, FirstSuccess, Genuine, ClientRequest, OnResponse, Lose, OnTimeout, ConnStep, PairSocks;
    match e
    case Request(m, timerOk) => RequestSocks(s, m, timerOk);
    case Response(i, k, r, got, torn) => ResponseSocks(s, i, k, r);
    case ConnectionLost(i, k) => LoseSocks(s, i, k);
    case ClientConnects =>
    case ClientLeaves =>
    case BlockNotify =>
    case _ =>
      ConnStepIs(s, e);
      ConnStepSock(s, e);
  }

  // ---------------------------------------------------------------- calm runs

  ghost predicate CalmRun(s: Proxy, run: seq<Event>)
    requires Legal(s, run)
    decreases |run|
  {
    run == [] || (Calm(s, run[0]) && CalmRun(Step(s, run[0]), run[1..]))
  }

  /** In a calm run every event is timely. */
  lemma {:induction false} CalmRunIsTimely(s: Proxy, run: seq<Event>)
    requires Calmly(s) && Legal(s, run) && CalmRun(s, run)
    ensures TimelyRun(s, run)
    decreases |run|
  {
    if run != [] {
      CalmIsTimely(s, run[0]);
      StepGenuine(s, run[0], true);
      StepSocks(s, run[0]);
      hide Genuinely, SocksOk, Step, Enabled, Timely;
      CalmRunIsTimely(Step(s, run[0]), run[1..]);
    }
  }

  // ---------------------------------------------------------------- a connection still drains

  /** Whenever node `i` still drains an older request and a race is dispatched to some other
      node, a successful response of `i` is forwarded to the client as the answer to the
      new request although that was never sent to `i`: it answers an older request. */
  lemma StaleAnswerForwarded(s: Proxy, m: Method, timerOk: bool, t: Proxy, i: nat, r: Reply, got: nat, torn: bool)
    requires Inv(s) && s.phase == Idle && s.client && Classify(Named(s, m)) != ToSticky
    requires i < |s.pairs| && Active(s.pairs[i]).state == Receiving && Active(s.pairs[i]).reply == None
    requires exists j :: 0 <= j < |s.pairs| && Available(s.pairs[j])
    requires t == ClientRequest(s, m, timerOk) && !r.isError
    ensures t.phase == Fanout && t.winner == -1 && |t.pairs| == |s.pairs| && t.pairs[i] == s.pairs[i]
    ensures Active(s.pairs[i]).req < t.req && Next(Active(s.pairs[i]).sock) < t.req
    ensures var k := s.pairs[i].active;
            var u := OnResponse(PutConn(t, i, k, TakeReply(Active(s.pairs[i]), r, got, torn)), i, k, r);
            && |t.log| <= |u.log|
            && Forwarded(i, Next(Active(s.pairs[i]).sock), true) in u.log[|t.log|..]
  {
    var k := s.pairs[i].active;
    DispatchedFanout(s, m, timerOk);
    assert PairOk(s.pairs[i], s.req);
    hide Summary, FirstSuccess, ClientRequest, OnResponse;
    FirstAnswerForwarded(PutConn(t, i, k, TakeReply(Active(s.pairs[i]), r, got, torn)), i, k, r);
  }

  lemma DispatchedFanout(s: Proxy, m: Method, timerOk: bool)
    requires Inv(s) && s.phase == Idle && Classify(Named(s, m)) != ToSticky
    requires exists j :: 0 <= j < |s.pairs| && Available(s.pairs[j])
    ensures var t := ClientRequest(s, m, timerOk);
            && t.phase == Fanout && t.winner == -1 && !t.heightMatched && t.client == s.client && t.req == s.req + 1
            && |t.pairs| == |s.pairs|
            && forall i :: 0 <= i < |s.pairs| ==> t.pairs[i] == SendIfAvailable(s.pairs[i], t.req)
  {
    var b := Opened(s, m);
    assert b.pairs == s.pairs && b.phase == Fanout && b.winner == -1 && !b.heightMatched && b.client == s.client;
    assert b.req == s.req + 1;
    hide Summary, FirstSuccess, Opened, FanoutOrClose, Inv, Classify;
    FanoutReaches(b, timerOk);
  }

  lemma FanoutReaches(b: Proxy, timerOk: bool)
    requires exists j :: 0 <= j < |b.pairs| && Available(b.pairs[j])
    ensures var t := FanoutOrClose(b, timerOk);
            && t.phase == b.phase && t.winner == b.winner && t.heightMatched == b.heightMatched
            && t.client == b.client && t.req == b.req && |t.pairs| == |b.pairs|
            && forall i :: 0 <= i < |b.pairs| ==> t.pairs[i] == SendIfAvailable(b.pairs[i], b.req)
  {
    TargetsAre(b.pairs, |b.pairs|);
    hide Targets, SentEntries, SendIfAvailable;
  }

  lemma FirstAnswerForwarded(t: Proxy, i: nat, k: Slot, r: Reply)
    requires t.phase == Fanout && t.winner == -1 && !t.heightMatched && i < |t.pairs|
    requires Get(t.pairs[i], k).reply == Some(r) && !r.isError
    ensures var u := OnResponse(t, i, k, r);
            && |t.log| < |u.log|
            && Forwarded(i, Get(t.pairs[i], k).sock.held, t.client) in u.log[|t.log|..]
  {
    var c := Get(t.pairs[i], k);
    var f := Finish(t, i, Answered(false), c.sock.held);
    if IsGbtRace(f) { GbtSuccessIs(f, i, c, r.height); }
    ForwardIs(f.(winner := i), i, c);
    hide GbtSuccess, Forward, FallbackChoice;
    var j := Judge(f, i, c, r);
    assert j.log == f.log + [Forwarded(i, c.sock.held, t.client)];
    assert j.log[|t.log| + 1] == Forwarded(i, c.sock.held, t.client);
    hide Judge;
    ConcludeLogGrows(j, i, k);
    var u := OnResponse(t, i, k, r);
    assert u.log[|t.log|..][1] == u.log[|t.log| + 1] == j.log[|t.log| + 1];
  }

  lemma ConcludeLogGrows(j: Proxy, i: nat, k: Slot)
    requires i < |j.pairs| && 0 <= j.winner < |j.pairs|
    ensures j.log <= Conclude(j, i, k).log
  {
    hide ResetParticipant, Tick, ResetIfInFlight;
  }

  // ---------------------------------------------------------------- a node reports again

  /** A connection that has answered and reports again (the server sends more, or repeats)
      is counted as a second outcome of its node, so the log is no longer genuine. */
  lemma RepeatedAnswerCounted(s: Proxy, i: nat, k: Slot, r: Reply)
    requires WellFormed(s) && s.phase != Idle && i < |s.pairs|
    requires Get(s.pairs[i], k).reply == Some(r) && NodeFinished(Summary(s.log).outcomes, i)
    ensures !Genuine(OnResponse(s, i, k, r).log)
  {
    hide Summary, Genuine, OnResponse;
    OnResponseStarts(s, i, k, r);
    NotGenuine(s.log, Finished(i, RaceModel.Answered(r.isError), Get(s.pairs[i], k).sock.held), OnResponse(s, i, k, r).log);
  }

  // ---------------------------------------------------------------- a timer fires

  /** Node `i` has the request whole, and nothing of its answer has been read. */
  predicate Waiting(s: Proxy, i: nat) {
    i < |s.pairs| &&
    var p, c := s.pairs[i], Active(s.pairs[i]);
    && c.state == Receiving && c.reply == None && !c.closing && !p.swapRequired
    && c.sock.owed == [s.req] && !c.sock.torn && !c.sock.garbled
  }

  /** The timeout gives the request up, but keeps the connection and with it the answer. */
  lemma TimeoutKeepsAnswer(s: Proxy, i: nat)
    requires Inv(s) && s.phase != Idle && Waiting(s, i)
    ensures var t := OnTimeout(s);
            && Inv(t) && t.phase == Idle && t.req == s.req && t.notifyPending == s.notifyPending
            && t.stickyNode == s.stickyNode && |t.pairs| == |s.pairs| && t.pairs[i].active == s.pairs[i].active
            && Available(t.pairs[i]) && Active(t.pairs[i]).sock == Active(s.pairs[i]).sock
  {
    TimeoutKeeps(s);
    hide Summary, FirstSuccess, WinGbt;
    assert Tick(ResetParticipant(s.pairs[i])) == ResetParticipant(s.pairs[i]);
  }

  lemma RunOne(s: Proxy, e: Event, run: seq<Event>)
    requires WellFormed(s) && Enabled(s, e) && Legal(Step(s, e), run)
    ensures Legal(s, [e] + run) && Run(s, [e] + run) == Run(Step(s, e), run)
  {
    assert ([e] + run)[1..] == run;
    hide Step, Enabled, WellFormed;
  }

  lemma RunFour(s: Proxy, e: Event, t: Proxy, f: Event, u: Proxy, g: Event, v: Proxy, h: Event)
    requires WellFormed(s) && Enabled(s, e) && t == Step(s, e) && WellFormed(t) && Enabled(t, f) && u == Step(t, f)
    requires WellFormed(u) && Enabled(u, g) && v == Step(u, g) && WellFormed(v) && Enabled(v, h)
    ensures Legal(s, [e, f, g, h]) && Run(s, [e, f, g, h]) == Step(v, h)
  {
    hide Step, Enabled, WellFormed;
    RunOne(v, h, []);
    RunOne(u, g, [h]);
    RunOne(t, f, [g, h]);
    RunOne(s, e, [f, g, h]);
    assert [h] == [h] + [] && [g, h] == [g] + [h] && [f, g, h] == [f] + [g, h] && [e, f, g, h] == [e] + [f, g, h];
  }

  lemma StepsAre(s: Proxy, m: Method)
    requires WellFormed(s)
    ensures s.timer ==> Enabled(s, Timeout(false)) && Step(s, Timeout(false)) == OnTimeout(s)
    ensures Enabled(s, ClientConnects) && Step(s, ClientConnects) == s.(client := true)
    ensures s.client ==> Enabled(s, Request(m, true)) && Step(s, Request(m, true)) == ClientRequest(s, m, true)
  {
    hide OnTimeout, ClientRequest, WellFormed;
  }

  lemma ConnStepsAre(s: Proxy, i: nat, k: Slot, r: Reply)
    requires WellFormed(s) && i < |s.pairs|
    ensures var c := Get(s.pairs[i], k);
            && (c.state == Sending ==>
                  && Enabled(s, SendDone(i, k))
                  && Step(s, SendDone(i, k)) == PutConn(s, i, k, SendComplete(c)))
            && (c.state == Receiving && c.reply == None ==>
                  && Enabled(s, Response(i, k, r, 1, false))
                  && Step(s, Response(i, k, r, 1, false)) ==
                       OnResponse(PutConn(s, i, k, TakeReply(c, r, 1, false)), i, k, r))
  {
    hide OnResponse, SendComplete, TakeReply;
  }

  /** A request was raced and node `i` has it whole, on the socket that owes an answer to the
      request before. */
  predicate Reused(s: Proxy, i: nat, k: Slot) {
    && Inv(s) && s.phase == Fanout && s.winner == -1 && !s.heightMatched && s.client && s.req > 0
    && i < |s.pairs|
    && var c := Get(s.pairs[i], k);
    c.state == Receiving && c.reply == None && c.sock.owed == [s.req - 1, s.req] && !c.sock.garbled
  }

  /** The same while the request is still being sent. */
  predicate Reusing(s: Proxy, i: nat, k: Slot) {
    && Inv(s) && s.phase == Fanout && s.winner == -1 && !s.heightMatched && s.client && s.req > 0
    && i < |s.pairs|
    && var c := Get(s.pairs[i], k);
    c.state == Sending && c.req == s.req && c.sock.owed == [s.req - 1] && !c.sock.garbled
  }

  lemma RequestReuses(s: Proxy, i: nat, m: Method)
    requires Inv(s) && s.phase == Idle && s.client && Classify(Named(s, m)) != ToSticky && i < |s.pairs|
    requires Available(s.pairs[i]) && Active(s.pairs[i]).sock.owed == [s.req] && !Active(s.pairs[i]).sock.garbled
    ensures var t := ClientRequest(s, m, true); t.req == s.req + 1 && Reusing(t, i, s.pairs[i].active)
  {
    DispatchedFanout(s, m, true);
    RequestKeeps(s, m, true);
    hide ClientRequest, Classify, Inv;
    assert ClientRequest(s, m, true).pairs[i] == SendIfAvailable(s.pairs[i], s.req + 1);
  }

  lemma SendReuses(s: Proxy, i: nat, k: Slot)
    requires Reusing(s, i, k)
    ensures WellFormed(s) && Enabled(s, SendDone(i, k))
    ensures var t := Step(s, SendDone(i, k)); t.req == s.req && Reused(t, i, k)
  {
    InvWellFormed(s);
    ConnStepsAre(s, i, k, Reply(false, 0, false));
    hide Inv, WellFormed, Step, Enabled;
    StepKeeps(s, SendDone(i, k));
    assert [s.req - 1] + [s.req] == [s.req - 1, s.req];
  }

  lemma InvWellFormed(s: Proxy)
    requires Inv(s)
    ensures WellFormed(s)
  {
    hide Summary, FirstSuccess;
  }

  /** The next request that goes to the node by the same connection is answered with the
      answer to the request that timed out, for every state in which a node is waited for
      and every request that is raced. */
  lemma LateAnswerForwarded(s: Proxy, i: nat, m: Method, r: Reply)
    requires Inv(s) && s.phase != Idle && s.timer && Waiting(s, i) && !r.isError
    requires Classify(Named(s, m)) != ToSticky
    ensures var k := s.pairs[i].active;
            var run := [Timeout(false), ClientConnects, Request(m, true), SendDone(i, k)];
            && Legal(s, run)
            && var t := Run(s, run);
            && t.req == s.req + 1 && WellFormed(t) && Enabled(t, Response(i, k, r, 1, false))
            && var u := Step(t, Response(i, k, r, 1, false));
            && |t.log| <= |u.log| && Forwarded(i, s.req, true) in u.log[|t.log|..]
  {
    var k := s.pairs[i].active;
    ReuseSteps(s, i, m);
    var t := Run(s, [Timeout(false), ClientConnects, Request(m, true), SendDone(i, k)]);
    InvWellFormed(t);
    ConnStepsAre(t, i, k, r);
    hide Inv, Legal, Run, OnResponse, Waiting, Classify, WellFormed, Step, Enabled;
    FirstAnswerForwarded(PutConn(t, i, k, TakeReply(Get(t.pairs[i], k), r, 1, false)), i, k, r);
  }

  lemma ReuseSteps(s: Proxy, i: nat, m: Method)
    requires Inv(s) && s.phase != Idle && s.timer && Waiting(s, i) && Classify(Named(s, m)) != ToSticky
    ensures var k := s.pairs[i].active;
            var run := [Timeout(false), ClientConnects, Request(m, true), SendDone(i, k)];
            Legal(s, run) && Run(s, run).req == s.req + 1 && Reused(Run(s, run), i, k)
  {
    var k := s.pairs[i].active;
    ClientBack(s, i, m);
    var s1 := OnTimeout(s);
    var s2 := s1.(client := true);
    hide OnTimeout, ClientRequest, Classify, Inv, WellFormed, Step, Enabled, Reused, Reusing, Legal, Run, Waiting, Available;
    RequestReuses(s2, i, m);
    SendReuses(ClientRequest(s2, m, true), i, k);
    InvWellFormed(s);
    StepsAre(s, m);
    StepsAre(s1, m);
    StepsAre(s2, m);
    var s3 := ClientRequest(s2, m, true);
    RunFour(s, Timeout(false), s1, ClientConnects, s2, Request(m, true), s3, SendDone(i, k));
  }

  /** After the timeout a client connects again. */
  lemma ClientBack(s: Proxy, i: nat, m: Method)
    requires Inv(s) && s.phase != Idle && Waiting(s, i) && Classify(Named(s, m)) != ToSticky
    ensures var t := OnTimeout(s);
            var u := t.(client := true);
            && WellFormed(t) && WellFormed(u) && StickyValid(u) && Inv(u) && u.phase == Idle && u.client && u.req == s.req
            && Classify(Named(u, m)) != ToSticky && i < |u.pairs| && u.pairs[i].active == s.pairs[i].active
            && Available(u.pairs[i]) && Active(u.pairs[i]).sock.owed == [s.req] && !Active(u.pairs[i]).sock.garbled
  {
    TimeoutKeepsAnswer(s, i);
    hide OnTimeout, Inv;
    ClientChange(OnTimeout(s), true, false);
    InvWellFormed(OnTimeout(s));
    InvWellFormed(OnTimeout(s).(client := true));
  }
}
