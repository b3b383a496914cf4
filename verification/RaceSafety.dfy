/**
  What every callback of the proxy keeps, for every state and every event the event loop
  can deliver, and what follows for whole runs.
 */
module RaceSafety {
  import opened Options
  import opened RaceModel
  import opened RaceLog

  // ---------------------------------------------------------------- invariants

  /** No connection carries, or owes an answer to, a request that was not made yet. */
  predicate Past(c: Conn, req: nat) {
    c.req <= req && forall j :: 0 <= j < |c.sock.owed| ==> c.sock.owed[j] <= c.req
  }

  /** The standby of a pair never carries a request. */
  predicate PairOk(p: Pair, req: nat) {
    !InFlight(Standby(p)) && Past(p.slot0, req) && Past(p.slot1, req)
  }

  predicate SlotsOk(pairs: seq<Pair>, req: nat) {
    forall i :: 0 <= i < |pairs| ==> PairOk(pairs[i], req)
  }

  /** A getblocktemplate can only be routed to the sticky node after a race. */
  predicate StickyBacked(s: Proxy, raced: bool) {
    !s.notifyPending && (s.stickyNode != -1 || (s.phase != Idle && s.rpc == GetBlockTemplate)) ==> raced
  }

  /** Holds of the state and the summary of its history, whatever the proxy is doing. */
  predicate Sound(s: Proxy, d: Digest) {
    && WellFormed(s)
    && SlotsOk(s.pairs, s.req)
    && d.lawful
    && StickyBacked(s, d.raced)
    && s.req == d.requests
  }

  /** Bookkeeping while a request is being served; `pending` may have just reached 0. */
  predicate Serving(s: Proxy, d: Digest) {
    && Sound(s, d)
    && s.phase != Idle
    && s.pending == |d.sent| - |d.outcomes| <= |s.pairs|
    && !d.expired && !d.over && (s.allMustComplete <==> d.broadcast)
    && s.winner == FirstSuccess(d.outcomes)
    && (d.open <==> s.winner == -1)
    && (s.phase == Sticky || s.rpc == GetBlockTemplate ==> !s.allMustComplete)
    && (forall i :: i in d.resent ==> i < |s.retried| && s.retried[i])
  }

  /** What holds between events. */
  predicate InvFor(s: Proxy, d: Digest) {
    && Sound(s, d)
    && (s.phase == Idle ==> !d.open && (d.broadcast && d.sent != [] ==> d.over))
    && (s.phase != Idle ==>
          && Serving(s, d)
          && s.pending >= 1
          && (s.winner != -1 ==> s.allMustComplete)
          && (IsGbtRace(s) ==> s.bestNode == -1 && !s.heightMatched))
  }

  /** Holds in every reachable state. */
  predicate Inv(s: Proxy) { InvFor(s, Summary(s.log)) }

  // ---------------------------------------------------------------- pairs

  lemma ConnFacts(c: Conn, req: nat)
    requires Past(c, req)
    ensures Past(Reset(c), req) && !InFlight(Reset(c)) && Past(Disconnect(c), req)
    ensures c.state == Connected ==> Past(Send(c, req).value, req)
  {
  }

  lemma PairFacts(p: Pair, req: nat)
    requires PairOk(p, req)
    ensures PairOk(Tick(p), req) && (!InFlight(Active(p)) ==> !InFlight(Active(Tick(p))))
    ensures PairOk(ResetParticipant(p), req) && !InFlight(Active(ResetParticipant(p)))
    ensures PairOk(DrainAll(p), req) && !InFlight(Active(DrainAll(p)))
    ensures PairOk(SendIfAvailable(p, req), req)
    ensures PairOk(ReportError(p), req) && !InFlight(Active(ReportError(p)))
  {
    ConnFacts(Active(p), req);
    hide Past, Reset;
  }

  lemma ConnectFacts(p: Pair, o: ConnectOutcome, req: nat)
    requires PairOk(p, req)
    ensures var q := Connect(p, Other(p.active), o);
            PairOk(q, req) && (InFlight(Active(p)) || InFlight(Active(q)) ==> Active(q) == Active(p))
  {
  }

  lemma RefreshFacts(p: Pair, o: ConnectOutcome, req: nat)
    requires PairOk(p, req)
    ensures PairOk(RefreshStandby(p, o), req)
    ensures var q := RefreshStandby(p, o); InFlight(Active(p)) || InFlight(Active(q)) ==> Active(q) == Active(p)
  {
    var k := Other(p.active);
    var dropped := if Get(p, k).state == Connected then Disconnect(Get(p, k)) else Get(p, k);
    var r := Put(p, k, dropped.(standbyCb := true));
    if dropped.state == Disconnected {
      assert PairOk(r, req) && Active(r) == Active(p) && r.active == p.active;
      ConnectFacts(r, o, req);
    }
    hide Connect, PairOk;
  }

  lemma RotateFacts(p: Pair, o: ConnectOutcome, req: nat)
    requires PairOk(p, req)
    ensures PairOk(Rotate(p, o), req)
    ensures InFlight(Active(p)) || InFlight(Active(Rotate(p, o))) ==> Active(Rotate(p, o)) == Active(p)
  {
    RefreshFacts(p, o, req);
    hide RefreshStandby;
  }

  lemma ConnectEndsFacts(p: Pair, k: Slot, ok: bool, req: nat)
    requires PairOk(p, req) && Get(p, k).state == Connecting
    ensures PairOk(ConnectEnds(p, k, ok), req)
    ensures InFlight(Active(p)) || InFlight(Active(ConnectEnds(p, k, ok))) ==>
              Active(ConnectEnds(p, k, ok)) == Active(p)
  {
  }

  /** Rotation and reconnects never touch a connection that carries a request: the pair's
      active connection stays active and unchanged. */
  lemma RotationSparesRequests(s: Proxy, e: Event, i: nat)
    requires Inv(s) && Enabled(s, e) && i < |s.pairs| && InFlight(Active(s.pairs[i]))
    requires e.RotationTimer? || e.ConnectDone?
    ensures Active(Step(s, e).pairs[i]) == Active(s.pairs[i])
  {
    hide Summary, ClientRequest, OnResponse, Lose, OnTimeout, Rotate, ConnectEnds;
    if e.RotationTimer? {
      RotateFacts(s.pairs[e.node], e.outcome, s.req);
    } else {
      ConnectEndsFacts(s.pairs[e.node], e.slot, e.ok, s.req);
    }
  }

  // ---------------------------------------------------------------- end of a race

  lemma RaceCompleteKeeps(s: Proxy, d: Digest)
    requires d == Summary(s.log) && Sound(s, d) && !d.open
    requires d.expired || |d.outcomes| == |d.sent|
    ensures Inv(RaceComplete(s)) && !AnyInFlight(RaceComplete(s).pairs)
  {
    var t := RaceComplete(s);
    forall i | 0 <= i < |s.pairs|
      ensures PairOk(t.pairs[i], s.req) && !InFlight(Active(t.pairs[i]))
    {
      PairFacts(s.pairs[i], s.req);
      PairFacts(ResetParticipant(s.pairs[i]), s.req);
    }
    Extend(s.log, RaceOver);
    hide Summary;
  }

  // ---------------------------------------------------------------- responses

  /** A node has finished; nothing is decided yet. */
  predicate JustFinished(s: Proxy, d: Digest, i: nat, outcome: Outcome) {
    && Sound(s, d) && s.phase != Idle && i < |s.pairs|
    && 0 <= s.pending == |d.sent| - |d.outcomes| <= |s.pairs|
    && !d.expired && !d.over && (s.allMustComplete <==> d.broadcast) && d.outcomes != []
    && d.outcomes[|d.outcomes| - 1].Finished? && d.outcomes[|d.outcomes| - 1].node == i
    && d.outcomes[|d.outcomes| - 1].outcome == outcome
    && FirstSuccess(d.outcomes) ==
         (if s.winner != -1 then s.winner else if outcome == Answered(false) then i else -1)
    && (d.open <==> s.winner == -1)
    && (s.winner != -1 ==> s.allMustComplete)
    && (s.phase == Sticky || s.rpc == GetBlockTemplate ==> !s.allMustComplete)
    && (IsGbtRace(s) ==> s.bestNode == -1 && !s.heightMatched)
    && (forall j :: j in d.resent ==> j < |s.retried| && s.retried[j])
  }

  lemma FinishKeeps(s: Proxy, i: nat, outcome: Outcome, req: nat)
    requires Inv(s) && s.phase != Idle && i < |s.pairs|
    ensures JustFinished(Finish(s, i, outcome, req), Summary(Finish(s, i, outcome, req).log), i, outcome)
  {
    var e := Finished(i, outcome, req);
    Extend(s.log, e);
    FirstSuccessExtend(Summary(s.log).outcomes, e);
    hide Summary, FirstSuccess;
  }

  /** After the response was judged, before the end of the race is examined. */
  predicate Judged(s: Proxy, d: Digest, i: nat) {
    && Serving(s, d)
    && i < |s.pairs|
    && s.pending >= 0
    && (s.winner != -1 && !s.allMustComplete ==> s.winner == i)
    && (s.winner == -1 ==>
          && s.lastError == i
          && (IsGbtRace(s) ==> s.bestNode == -1 && !s.heightMatched)
          && (s.pending == 0 ==> Choose(d) == Answer(i)))
  }

  /** A first success: `t` is `s` with node `i` as the winner and its response forwarded. */
  lemma WinKeeps(s: Proxy, t: Proxy, i: nat, req: nat)
    requires JustFinished(s, Summary(s.log), i, Answered(false)) && s.winner == -1
    requires t.log == s.log + [Forwarded(i, req, s.client)] && t.winner == i && t.pairs == s.pairs
    requires t.phase == s.phase && t.rpc == s.rpc && t.pending == s.pending && t.retried == s.retried
    requires t.allMustComplete == s.allMustComplete && t.notifyPending == s.notifyPending && t.req == s.req
    requires t.stickyNode == s.stickyNode || (s.rpc == GetBlockTemplate && t.stickyNode == i)
    ensures Judged(t, Summary(t.log), i)
  {
    Extend(s.log, Forwarded(i, req, s.client));
    hide Summary, FirstSuccess;
  }

  lemma JudgeKeeps(s: Proxy, i: nat, c: Conn, r: Reply)
    requires JustFinished(s, Summary(s.log), i, Answered(r.isError)) && c.reply == Some(r)
    ensures Judged(Judge(s, i, c, r), Summary(Judge(s, i, c, r).log), i)
    ensures Judge(s, i, c, r).pairs == s.pairs
  {
    hide Summary, FirstSuccess, GbtSuccess, Forward;
    if !r.isError && s.winner == -1 {
      if IsGbtRace(s) { GbtSuccessIs(s, i, c, r.height); }
      ForwardIs(s.(winner := i), i, c);
      WinKeeps(s, Judge(s, i, c, r), i, c.sock.held);
    }
  }

  lemma ForwardIs(s: Proxy, i: nat, c: Conn)
    requires c.reply.Some?
    ensures Forward(s, i, c) == Note(s, Forwarded(i, c.sock.held, s.client))
  {
  }

  /** With nothing matched and nobody ahead, a response of any height wins at once. */
  lemma GbtSuccessIs(s: Proxy, i: nat, c: Conn, height: int)
    requires !s.heightMatched && s.winner == -1 && c.reply.Some?
    ensures var t := GbtSuccess(s, i, c, height);
            && t == s.(winner := i, stickyNode := i, lastHeight := Max(s.lastHeight, height),
                       heightMatched := height == s.lastHeight + 1,
                       bestHeight := t.bestHeight, bestNode := t.bestNode,
                       log := s.log + [Forwarded(i, c.sock.held, s.client)])
  {
  }

  lemma LeaveEarlyKeeps(t: Proxy, i: nat, k: Slot)
    requires Serving(t, Summary(t.log)) && t.winner == i < |t.pairs| && k == t.pairs[i].active && !t.allMustComplete
    ensures Inv(LeaveEarly(t, i, k))
  {
    hide Summary, FirstSuccess;
  }

  /** When the last node to finish answered with an error and nobody won, that error is
      forwarded: the best-height fallback is never taken. */
  lemma LastErrorForwarded(t: Proxy, d: Digest, i: nat)
    requires d == Summary(t.log) && Judged(t, d, i) && t.pending == 0 && t.winner == -1
    requires Active(t.pairs[i]).recv && Active(t.pairs[i]).reply.Some?
    ensures FallbackChoice(t) == Note(t, Forwarded(i, Active(t.pairs[i]).sock.held, t.client))
    ensures Inv(RaceComplete(FallbackChoice(t)))
  {
    Extend(t.log, Forwarded(i, Active(t.pairs[i]).sock.held, t.client));
    hide Summary, FirstSuccess, RaceComplete;
    RaceCompleteKeeps(FallbackChoice(t), Summary(FallbackChoice(t).log));
  }

  lemma ConcludeKeeps(t: Proxy, i: nat, k: Slot)
    requires Judged(t, Summary(t.log), i) && k == t.pairs[i].active
    requires Active(t.pairs[i]).recv && Active(t.pairs[i]).reply.Some?
    ensures Inv(Conclude(t, i, k))
  {
    hide Summary, FirstSuccess, RaceComplete, FallbackChoice, LeaveEarly;
    if t.pending <= 0 {
      if t.winner == -1 {
        LastErrorForwarded(t, Summary(t.log), i);
      } else {
        RaceCompleteKeeps(t, Summary(t.log));
      }
    } else if !t.allMustComplete && t.winner != -1 {
      LeaveEarlyKeeps(t, i, k);
    }
  }

  lemma ResponseKeeps(s: Proxy, i: nat, k: Slot, r: Reply)
    requires Inv(s) && i < |s.pairs|
    requires var c := Get(s.pairs[i], k); c.state == Receiving && c.reply == Some(r) && c.recv
    ensures Inv(OnResponse(s, i, k, r))
  {
    var c := Get(s.pairs[i], k);
    hide Summary, FirstSuccess, Conclude, Judge, Finish, DrainOne;
    assert k == s.pairs[i].active;
    if s.phase == Idle {
      DrainOneKeeps(s, i, k);
    } else {
      FinishKeeps(s, i, Answered(r.isError), c.sock.held);
      var f := Finish(s, i, Answered(r.isError), c.sock.held);
      assert f.pairs == s.pairs by { FinishPairs(s, i, Answered(r.isError), c.sock.held); }
      JudgeKeeps(f, i, c, r);
      ConcludeKeeps(Judge(f, i, c, r), i, k);
    }
  }

  lemma FinishPairs(s: Proxy, i: nat, outcome: Outcome, req: nat)
    ensures Finish(s, i, outcome, req).pairs == s.pairs
  {
  }

  // ---------------------------------------------------------------- transport errors

  lemma NodeFailedKeeps(s: Proxy, i: nat, req: nat)
    requires Inv(s) && s.phase != Idle && i < |s.pairs|
    ensures Inv(NodeFailed(s, i, req))
    ensures NodeFailed(s, i, req).phase == Idle ==> !AnyInFlight(NodeFailed(s, i, req).pairs)
  {
    hide Summary, FirstSuccess, RaceComplete, Finish;
    FinishKeeps(s.(lastError := i), i, Failed, req);
    var f := Finish(s.(lastError := i), i, Failed, req);
    Extend(f.log, ClosedClient);
    if f.pending <= 0 {
      var g := if f.winner == -1 then CloseClient(f) else f;
      RaceCompleteKeeps(g, Summary(g.log));
    }
  }

  lemma RetryKeeps(s: Proxy, i: nat, req: nat)
    requires Inv(s) && s.phase != Idle && i < |s.pairs| && s.retried[i] && i !in Summary(s.log).resent
    ensures Inv(Retry(s, i, req))
  {
    hide Summary, FirstSuccess, NodeFailed;
    if Available(s.pairs[i]) {
      PairFacts(s.pairs[i], s.req);
      Extend(s.log, Resent(i));
    } else {
      NodeFailedKeeps(s, i, req);
    }
  }

  lemma SwapKeeps(s: Proxy, i: nat)
    requires Inv(s) && i < |s.pairs|
    ensures Inv(s.(pairs := s.pairs[i := ReportError(s.pairs[i])], retried := s.retried[i := true]))
  {
    PairFacts(s.pairs[i], s.req);
    hide Summary, FirstSuccess, ReportError;
  }

  lemma DrainOneKeeps(s: Proxy, i: nat, k: Slot)
    requires Inv(s) && s.phase == Idle && i < |s.pairs|
    ensures Inv(DrainOne(s, i, k))
  {
    hide Summary, FirstSuccess;
  }

  lemma ErrorKeeps(s: Proxy, i: nat, k: Slot)
    requires Inv(s) && i < |s.pairs| && Get(s.pairs[i], k).state == Disconnected
    ensures Inv(OnError(s, i, k))
  {
    hide Summary, FirstSuccess, NodeFailed, ReportError, Retry, DrainOne;
    var req := Get(s.pairs[i], k).req;
    if s.phase == Idle {
      DrainOneKeeps(s, i, k);
    } else if s.retried[i] {
      NodeFailedKeeps(s, i, req);
    } else {
      var swapped := s.(pairs := s.pairs[i := ReportError(s.pairs[i])], retried := s.retried[i := true]);
      SwapKeeps(s, i);
      RetryKeeps(swapped, i, req);
    }
  }

  // ---------------------------------------------------------------- timeout and notify

  lemma TimeoutKeeps(s: Proxy)
    requires Inv(s)
    ensures Inv(OnTimeout(s)) && !AnyInFlight(OnTimeout(s).pairs)
  {
    hide Summary, FirstSuccess, RaceComplete, WinGbt;
    if s.phase == Idle {
      forall i | 0 <= i < |s.pairs|
        ensures PairOk(DrainEverything(s).pairs[i], s.req) && !InFlight(Active(DrainEverything(s).pairs[i]))
      {
        PairFacts(s.pairs[i], s.req);
      }
    } else {
      var t0 := Note(s.(pending := 0), TimedOut);
      Extend(s.log, TimedOut);
      Extend(s.log + [TimedOut], ClosedClient);
      var g := if t0.winner == -1 then CloseClient(t0) else t0;
      assert BestOnTimeout(t0) == t0;
      RaceCompleteKeeps(g, Summary(g.log));
    }
  }

  lemma NotifyKeeps(s: Proxy)
    requires Inv(s)
    ensures Inv(OnNotify(s))
  {
    Extend(s.log, Notified);
    hide Summary, FirstSuccess;
  }

  // ---------------------------------------------------------------- dispatch

  /** Right after the request was classified: nothing sent yet. */
  predicate Begun(s: Proxy, d: Digest) {
    && Sound(s, d)
    && s.phase != Idle && s.winner == -1 && s.bestNode == -1 && !s.heightMatched
    && d.open && d.sent == [] && d.resent == {} && d.outcomes == [] && !d.expired && !d.over
    && (s.allMustComplete <==> d.broadcast)
    && (s.phase == Sticky || s.rpc == GetBlockTemplate ==> !s.allMustComplete)
    && (s.phase == Sticky ==> s.rpc == PreciousBlock || s.rpc == GetBlockTemplate)
  }

  lemma {:induction false} TargetsAre(pairs: seq<Pair>, n: nat)
    requires n <= |pairs|
    ensures |Targets(pairs, n)| <= n && forall j :: 0 <= j < |Targets(pairs, n)| ==> Targets(pairs, n)[j] < n
    ensures forall i, j :: 0 <= i < j < |Targets(pairs, n)| ==> Targets(pairs, n)[i] < Targets(pairs, n)[j]
    ensures forall i :: 0 <= i < n ==> (Available(pairs[i]) <==> i in Targets(pairs, n))
  {
    if n > 0 { TargetsAre(pairs, n - 1); }
  }

  lemma ObserveSent(d: Digest, i: nat)
    requires d.lawful && d.outcomes == [] && i !in d.sent && !d.over
    ensures Observe(d, Sent(i)) == d.(sent := d.sent + [i])
  {
    hide Choose;
  }

  /** The history after the sends of a fan-out. */
  lemma {:induction false} SendsLogged(log: seq<Entry>, nodes: seq<nat>)
    requires var d := Summary(log); d.lawful && d.open && d.sent == [] && d.outcomes == [] && !d.over
    requires forall i, j :: 0 <= i < j < |nodes| ==> nodes[i] < nodes[j]
    ensures Summary(log + SentEntries(nodes)) == Summary(log).(sent := nodes)
    decreases |nodes|
  {
    hide Summary, Observe;
    if nodes == [] {
      assert log + SentEntries(nodes) == log;
    } else {
      var m := |nodes| - 1;
      SendsLogged(log, nodes[..m]);
      var l := log + SentEntries(nodes[..m]);
      Extend(l, Sent(nodes[m]));
      assert l + [Sent(nodes[m])] == log + SentEntries(nodes);
      ObserveSent(Summary(l), nodes[m]);
      assert nodes == nodes[..m] + [nodes[m]];
    }
  }

  lemma DispatchFanoutFacts(s: Proxy)
    requires Begun(s, Summary(s.log))
    ensures var d := DispatchFanout(s);
            && |Targets(s.pairs, |s.pairs|)| <= |s.pairs|
            && Summary(d.log) == Summary(s.log).(sent := Targets(s.pairs, |s.pairs|)) && SlotsOk(d.pairs, s.req)
  {
    var nodes := Targets(s.pairs, |s.pairs|);
    TargetsAre(s.pairs, |s.pairs|);
    hide Summary, Targets;
    SendsLogged(s.log, nodes);
    forall i | 0 <= i < |s.pairs| ensures PairOk(DispatchFanout(s).pairs[i], s.req) {
      PairFacts(s.pairs[i], s.req);
    }
  }

  lemma FanoutKeeps(s: Proxy, timerOk: bool)
    requires Begun(s, Summary(s.log)) && s.phase == Fanout
    ensures Inv(FanoutOrClose(s, timerOk))
  {
    hide Summary, Targets, FirstSuccess;
    DispatchFanoutFacts(s);
    Extend(DispatchFanout(s).log, ClosedClient);
    assert FirstSuccess([]) == -1 by { NoSuccessYet(); }
  }

  lemma NoSuccessYet()
    ensures FirstSuccess([]) == -1
  {
  }

  /** A request for the sticky node that is fanned out after all. */
  function FallenBack(s: Proxy): Proxy {
    s.(retried := NoRetries(|s.pairs|), phase := Fanout, allMustComplete := false, bestHeight := -1,
       bestNode := -1, heightMatched := false)
  }

  predicate StickyUp(s: Proxy)
    requires StickyValid(s)
  {
    s.stickyNode != -1 && Available(s.pairs[s.stickyNode])
  }

  lemma StickySends(s: Proxy, timerOk: bool)
    requires StickyValid(s) && StickyUp(s)
    ensures DispatchSticky(s, timerOk) == StartTimer(SendSticky(s), timerOk)
  {
    hide SendSticky, StartTimer, Available;
  }

  lemma StickyFalls(s: Proxy, timerOk: bool)
    requires StickyValid(s) && !StickyUp(s)
    ensures s.rpc != PreciousBlock ==> DispatchSticky(s, timerOk) == FanoutOrClose(FallenBack(s), timerOk)
    ensures s.rpc == PreciousBlock ==> DispatchSticky(s, timerOk) == CloseClient(s.(retried := NoRetries(|s.pairs|))).(phase := Idle)
  {
    hide FanoutOrClose, CloseClient, Available, NoRetries;
  }

  lemma StickyKeeps(s: Proxy, timerOk: bool)
    requires Begun(s, Summary(s.log)) && s.phase == Sticky
    ensures Inv(DispatchSticky(s, timerOk))
  {
    hide Summary, FanoutOrClose, SendSticky, DispatchSticky, StartTimer, CloseClient, InvFor;
    if !StickyUp(s) {
      StickyFalls(s, timerOk);
      if s.rpc == PreciousBlock {
        GivenUp(s.(retried := NoRetries(|s.pairs|)));
      } else {
        FanoutKeeps(FallenBack(s), timerOk);
      }
    } else {
      StickySends(s, timerOk);
      SendStickyKeeps(s);
      TimerKeeps(SendSticky(s), timerOk);
    }
  }

  /** A request that was sent to nobody is answered by closing the client. */
  lemma GivenUp(s: Proxy)
    requires Begun(s, Summary(s.log))
    ensures Inv(CloseClient(s).(phase := Idle))
  {
    NoSuccessYet();
    Extend(s.log, ClosedClient);
    hide Summary, FirstSuccess;
  }

  lemma TimerKeeps(s: Proxy, timerOk: bool)
    requires Inv(s)
    ensures Inv(StartTimer(s, timerOk))
  {
    hide Summary, FirstSuccess;
  }

  lemma SendStickyKeeps(s: Proxy)
    requires Begun(s, Summary(s.log)) && s.phase == Sticky && s.stickyNode != -1
    ensures Inv(SendSticky(s))
  {
    PairFacts(s.pairs[s.stickyNode], s.req);
    Extend(s.log, Sent(s.stickyNode));
    hide Summary, SendIfAvailable, FirstSuccess;
    NoSuccessYet();
    ObserveSent(Summary(s.log), s.stickyNode);
    hide Observe;
  }

  lemma BeginKeeps(s: Proxy, m: Method)
    requires Inv(s) && s.phase == Idle
    ensures Begun(Opened(s, m), Summary(Opened(s, m).log))
  {
    Extend(s.log, Routed(m, Classify(Named(s, m))));
    hide Summary;
  }

  lemma RequestKeeps(s: Proxy, m: Method, timerOk: bool)
    requires Inv(s)
    ensures Inv(ClientRequest(s, m, timerOk))
  {
    hide Summary, DispatchSticky, FanoutOrClose, Opened;
    if s.phase == Idle {
      BeginKeeps(s, m);
      var b := Opened(s, m);
      if b.phase == Sticky { StickyKeeps(b, timerOk); } else { FanoutKeeps(b, timerOk); }
    }
  }

  // ---------------------------------------------------------------- every step, every run

  /** Nothing but the connections changed. */
  lemma PairsChange(s: Proxy, pairs: seq<Pair>)
    requires Inv(s) && |pairs| == |s.pairs| && SlotsOk(pairs, s.req)
    ensures Inv(s.(pairs := pairs))
  {
    hide Summary, FirstSuccess;
  }

  lemma ClientChange(s: Proxy, client: bool, stale: bool)
    requires Inv(s)
    ensures Inv(s.(client := client)) && Inv(Fired(s, stale))
  {
    hide Summary, FirstSuccess;
  }

  /** The connection has delivered its complete response and was not reset since. */
  predicate Done(c: Conn) { c.state == Receiving && c.reply.Some? }

  /** No pair carries a request that it did not carry before, or answers it. */
  predicate NoneStarted(before: seq<Pair>, after: seq<Pair>) {
    |before| == |after| &&
    forall i :: 0 <= i < |before| && InFlight(Active(after[i])) ==>
      var c, c' := Active(before[i]), Active(after[i]);
      InFlight(c) && c'.req == c.req && (Done(c') <==> Done(c))
  }

  /** Events that only touch a connection or a pair. */
  predicate OnlyConns(e: Event) {
    e.SendPart? || e.SendDone? || e.PartialData? || e.ConnectDone? || e.RotationTimer?
  }

  lemma OnePair(pairs: seq<Pair>, i: nat, q: Pair, req: nat)
    requires SlotsOk(pairs, req) && i < |pairs| && PairOk(q, req) && NoneStarted([pairs[i]], [q])
    ensures SlotsOk(pairs[i := q], req) && NoneStarted(pairs, pairs[i := q])
  {
    assert [pairs[i]][0] == pairs[i] && [q][0] == q;
    hide PairOk;
  }

  lemma OneConn(p: Pair, k: Slot, c: Conn, req: nat)
    requires PairOk(p, req) && Past(c, req)
    requires InFlight(c) ==> InFlight(Get(p, k)) && c.req == Get(p, k).req && (Done(c) <==> Done(Get(p, k)))
    ensures PairOk(Put(p, k, c), req) && NoneStarted([p], [Put(p, k, c)])
  {
    hide Past;
  }

  /** The pair that such an event touches, and what it makes of it. */
  function ConnStep(s: Proxy, e: Event): (nat, Pair)
    requires Enabled(s, e) && OnlyConns(e)
  {
    var p := s.pairs[e.node];
    (e.node,
     match e
     case SendPart(_, k) => Put(p, k, SendSome(Get(p, k)))
     case SendDone(_, k) => Put(p, k, SendComplete(Get(p, k)))
     case PartialData(_, k, close) => Put(p, k, TakeData(Get(p, k), close))
     case ConnectDone(_, k, ok) => ConnectEnds(p, k, ok)
     case RotationTimer(_, o) => Rotate(p, o))
  }

  lemma ConnStepFacts(s: Proxy, e: Event)
    requires SlotsOk(s.pairs, s.req) && Enabled(s, e) && OnlyConns(e)
    ensures PairOk(ConnStep(s, e).1, s.req) && NoneStarted([s.pairs[e.node]], [ConnStep(s, e).1])
  {
    var p := s.pairs[e.node];
    assert PairOk(p, s.req);
    hide ConnectEnds, Rotate, SlotsOk;
    match e
    case SendPart(_, k) => OneConn(p, k, SendSome(Get(p, k)), s.req);
    case SendDone(_, k) => OneConn(p, k, SendComplete(Get(p, k)), s.req);
    case PartialData(_, k, close) => OneConn(p, k, TakeData(Get(p, k), close), s.req);
    case ConnectDone(_, k, ok) => ConnectEndsFacts(p, k, ok, s.req);
    case RotationTimer(_, o) => RotateFacts(p, o, s.req);
  }

  lemma ConnStepIs(s: Proxy, e: Event)
    requires WellFormed(s) && SlotsOk(s.pairs, s.req) && Enabled(s, e) && OnlyConns(e)
    ensures Step(s, e) == s.(pairs := s.pairs[e.node := ConnStep(s, e).1])
    ensures SlotsOk(Step(s, e).pairs, s.req) && NoneStarted(s.pairs, Step(s, e).pairs)
  {
    ConnStepFacts(s, e);
    OnePair(s.pairs, e.node, ConnStep(s, e).1, s.req);
    hide ConnectEnds, Rotate, SlotsOk, NoneStarted, SendSome, SendComplete, TakeData;
  }

  lemma ConnStepKeeps(s: Proxy, e: Event)
    requires Inv(s) && Enabled(s, e) && OnlyConns(e)
    ensures Inv(Step(s, e))
  {
    ConnStepIs(s, e);
    hide Summary, Step, Inv;
    PairsChange(s, Step(s, e).pairs);
  }

  lemma ResponseStepKeeps(s: Proxy, i: nat, k: Slot, r: Reply, got: nat, torn: bool)
    requires Inv(s) && Enabled(s, Response(i, k, r, got, torn))
    ensures Inv(OnResponse(PutConn(s, i, k, TakeReply(Get(s.pairs[i], k), r, got, torn)), i, k, r))
  {
    hide Summary, FirstSuccess, OnResponse;
    var t := PutConn(s, i, k, TakeReply(Get(s.pairs[i], k), r, got, torn));
    PairsChange(s, t.pairs);
    ResponseKeeps(t, i, k, r);
  }

  lemma LoseKeeps(s: Proxy, i: nat, k: Slot)
    requires Inv(s) && i < |s.pairs|
    ensures Inv(Lose(s, i, k))
  {
    hide Summary, FirstSuccess, OnError;
    var t := PutConn(s, i, k, Get(s.pairs[i], k).(state := Disconnected));
    PairsChange(s, t.pairs);
    ErrorKeeps(t, i, k);
  }

  lemma StepKeeps(s: Proxy, e: Event)
    requires Inv(s) && Enabled(s, e)
    ensures Inv(Step(s, e))
  {
    hide Summary, InvFor, ClientRequest, OnResponse, Lose, OnTimeout, OnNotify, ConnectEnds, Rotate, Fired;
    match e
    case ClientConnects => ClientChange(s, true, false);
    case ClientLeaves => ClientChange(s, false, false);
    case Request(m, timerOk) => RequestKeeps(s, m, timerOk);
    case Response(i, k, r, got, torn) => ResponseStepKeeps(s, i, k, r, got, torn);
    case ConnectionLost(i, k) => LoseKeeps(s, i, k);
    case Timeout(stale) =>
      ClientChange(s, true, stale);
      TimeoutKeeps(Fired(s, stale));
    case BlockNotify => NotifyKeeps(s);
    case _ => ConnStepKeeps(s, e);
  }

  lemma InitPairFacts(o0: ConnectOutcome, o1: ConnectOutcome)
    ensures PairOk(InitPair(o0, o1), 0)
  {
  }

  lemma InitInv(connects: seq<(ConnectOutcome, ConnectOutcome)>)
    ensures Inv(Init(connects))
  {
    hide InitPair;
    forall i | 0 <= i < |connects| ensures PairOk(Init(connects).pairs[i], 0) {
      InitPairFacts(connects[i].0, connects[i].1);
    }
  }

  /** The events of a run can all be delivered, one after the other, from `s`. */
  predicate Legal(s: Proxy, run: seq<Event>)
    decreases |run|
  {
    run == [] || (WellFormed(s) && Enabled(s, run[0]) && Legal(Step(s, run[0]), run[1..]))
  }

  function Run(s: Proxy, run: seq<Event>): Proxy
    requires Legal(s, run)
    decreases |run|
  {
    if run == [] then s else Run(Step(s, run[0]), run[1..])
  }

  lemma {:induction false} RunKeeps(s: Proxy, run: seq<Event>)
    requires Inv(s) && Legal(s, run)
    ensures Inv(Run(s, run))
    decreases |run|
  {
    if run != [] {
      StepKeeps(s, run[0]);
      RunKeeps(Step(s, run[0]), run[1..]);
    }
  }
}
