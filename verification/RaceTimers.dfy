/**
  The timeout timer as a safety net, the end of every race, and the failing slot.
 */
module RaceTimers {
  import opened Options
  import opened RaceModel
  import opened RaceLog
  import opened RaceSafety

  // ---------------------------------------------------------------- timers

  /** Whenever a connection carries a request, even on an idle proxy, a timer is armed. */
  predicate Guarded(s: Proxy) {
    s.phase != Idle || AnyInFlight(s.pairs) ==> s.timer
  }

  lemma RequestGuarded(s: Proxy, m: Method)
    requires Inv(s) && Guarded(s)
    ensures Guarded(ClientRequest(s, m, true))
  {
    if s.phase == Idle {
      var b := Opened(s, m);
      assert b.pairs == s.pairs && b.timer == s.timer && StickyValid(b);
      hide Inv, Opened, FanoutOrClose, DispatchSticky;
      FanoutGuarded(b);
      StickyGuarded(b);
    }
  }

  lemma StickyGuarded(b: Proxy)
    requires StickyValid(b) && (AnyInFlight(b.pairs) ==> b.timer)
    ensures Guarded(DispatchSticky(b, true))
  {
    hide FanoutOrClose, DispatchSticky, SendSticky, AnyInFlight;
    if StickyUp(b) {
      StickySends(b, true);
    } else {
      StickyFalls(b, true);
      FanoutGuarded(FallenBack(b));
    }
  }

  lemma FanoutGuarded(b: Proxy)
    requires AnyInFlight(b.pairs) ==> b.timer
    ensures Guarded(FanoutOrClose(b, true))
  {
    var d := DispatchFanout(b);
    if d.pending <= 0 {
      TargetsAre(b.pairs, |b.pairs|);
      hide Targets;
      assert forall i :: 0 <= i < |b.pairs| ==> d.pairs[i] == b.pairs[i];
    }
  }

  lemma DrainOneGuarded(s: Proxy, i: nat, k: Slot)
    requires s.phase == Idle && i < |s.pairs| && !InFlight(Standby(s.pairs[i]))
    requires AnyInFlight(s.pairs) ==> s.timer
    ensures Guarded(DrainOne(s, i, k))
  {
    var d := PutConn(s, i, k, Reset(Get(s.pairs[i], k)));
    if AnyInFlight(d.pairs) {
      var j :| 0 <= j < |d.pairs| && InFlight(Active(d.pairs[j]));
      assert InFlight(Active(s.pairs[j]));
    }
  }

  lemma ResponseGuarded(s: Proxy, i: nat, k: Slot, r: Reply)
    requires Inv(s) && Guarded(s) && i < |s.pairs|
    requires var c := Get(s.pairs[i], k); c.state == Receiving && c.reply == Some(r) && c.recv
    ensures Guarded(OnResponse(s, i, k, r))
  {
    hide Summary, FirstSuccess, DrainOne, Conclude, Judge;
    if s.phase == Idle {
      DrainOneGuarded(s, i, k);
    } else {
      var c := Get(s.pairs[i], k);
      ConcludeGuarded(Judge(Finish(s, i, Answered(r.isError), c.sock.held), i, c, r), i, k);
    }
  }

  lemma ConcludeGuarded(s: Proxy, i: nat, k: Slot)
    requires s.timer && i < |s.pairs| && (s.winner != -1 ==> 0 <= s.winner < |s.pairs|)
    requires SlotsOk(s.pairs, s.req)
    ensures Guarded(Conclude(s, i, k))
  {
    hide RaceComplete, FallbackChoice;
    RaceCompleteGuarded(if s.winner == -1 then FallbackChoice(s) else s);
  }

  lemma RaceCompleteGuarded(s: Proxy)
    requires SlotsOk(s.pairs, s.req)
    ensures Guarded(RaceComplete(s)) && !AnyInFlight(RaceComplete(s).pairs)
  {
    forall i | 0 <= i < |s.pairs| ensures !InFlight(Active(RaceComplete(s).pairs[i])) {
      PairFacts(s.pairs[i], s.req);
      PairFacts(ResetParticipant(s.pairs[i]), s.req);
    }
  }

  lemma ErrorGuarded(s: Proxy, i: nat, k: Slot)
    requires Inv(s) && Guarded(s) && i < |s.pairs|
    ensures Guarded(OnError(s, i, k))
  {
    hide Summary, FirstSuccess, DrainOne, NodeFailed, ReportError;
    if s.phase == Idle {
      DrainOneGuarded(s, i, k);
    } else {
      NodeFailedGuarded(s, i, Get(s.pairs[i], k).req);
      PairFacts(s.pairs[i], s.req);
      NodeFailedGuarded(s.(pairs := s.pairs[i := ReportError(s.pairs[i])], retried := s.retried[i := true]), i,
                        Get(s.pairs[i], k).req);
    }
  }

  lemma NodeFailedGuarded(s: Proxy, i: nat, req: nat)
    requires s.timer && SlotsOk(s.pairs, s.req)
    ensures Guarded(NodeFailed(s, i, req))
  {
    hide RaceComplete;
    var f := Finish(s.(lastError := i), i, Failed, req);
    RaceCompleteGuarded(if f.winner == -1 then CloseClient(f) else f);
  }

  lemma PairsGuarded(s: Proxy, pairs: seq<Pair>)
    requires Guarded(s) && |pairs| == |s.pairs|
    requires forall i :: 0 <= i < |pairs| && InFlight(Active(pairs[i])) ==> InFlight(Active(s.pairs[i]))
    ensures Guarded(s.(pairs := pairs))
  {
  }

  lemma ConnStepGuarded(s: Proxy, e: Event)
    requires Inv(s) && Guarded(s) && Enabled(s, e) && OnlyConns(e)
    ensures Guarded(Step(s, e))
  {
    ConnStepIs(s, e);
    hide Inv, Step, Guarded;
    PairsGuarded(s, Step(s, e).pairs);
  }

  lemma LoseGuarded(s: Proxy, i: nat, k: Slot)
    requires Inv(s) && Guarded(s) && i < |s.pairs|
    ensures Guarded(Lose(s, i, k))
  {
    hide Summary, FirstSuccess, OnError;
    var t := PutConn(s, i, k, Get(s.pairs[i], k).(state := Disconnected));
    PairsChange(s, t.pairs);
    PairsGuarded(s, t.pairs);
    ErrorGuarded(t, i, k);
  }

  lemma ResponseStepGuarded(s: Proxy, i: nat, k: Slot, r: Reply, got: nat, torn: bool)
    requires Inv(s) && Guarded(s) && Enabled(s, Response(i, k, r, got, torn))
    ensures Guarded(OnResponse(PutConn(s, i, k, TakeReply(Get(s.pairs[i], k), r, got, torn)), i, k, r))
  {
    hide Summary, FirstSuccess, OnResponse;
    var t := PutConn(s, i, k, TakeReply(Get(s.pairs[i], k), r, got, torn));
    PairsChange(s, t.pairs);
    PairsGuarded(s, t.pairs);
    ResponseGuarded(t, i, k, r);
  }

  /** One event keeps the safety net, provided a timer could be created for a request. */
  lemma StepGuarded(s: Proxy, e: Event)
    requires Inv(s) && Guarded(s) && Enabled(s, e)
    requires e.Request? ==> e.timerOk
    ensures Guarded(Step(s, e))
  {
    hide Summary, FirstSuccess, InvFor, ClientRequest, OnResponse, Lose, OnTimeout, ConnectEnds, Rotate;
    match e
    case ClientConnects =>
    case ClientLeaves =>
    case Request(m, timerOk) => RequestGuarded(s, m);
    case Response(i, k, r, got, torn) => ResponseStepGuarded(s, i, k, r, got, torn);
    case ConnectionLost(i, k) => LoseGuarded(s, i, k);
    case Timeout(stale) =>
      ClientChange(s, true, stale);
      TimeoutEndsAll(Fired(s, stale));
    case BlockNotify =>
    case _ => ConnStepGuarded(s, e);
  }

  /** Once a timer fires, the current one or a forgotten one, the proxy is idle and no
      active connection carries a request. */
  lemma TimeoutEndsAll(s: Proxy)
    requires Inv(s)
    ensures OnTimeout(s).phase == Idle && !AnyInFlight(OnTimeout(s).pairs) && !OnTimeout(s).timer
  {
    TimeoutKeeps(s);
    hide Summary, FirstSuccess, WinGbt;
  }

  lemma {:induction false} RunGuarded(s: Proxy, run: seq<Event>)
    requires Inv(s) && Guarded(s) && Legal(s, run)
    requires forall j :: 0 <= j < |run| && run[j].Request? ==> run[j].timerOk
    ensures Guarded(Run(s, run))
    decreases |run|
  {
    if run != [] {
      StepKeeps(s, run[0]);
      StepGuarded(s, run[0]);
      hide Summary, Inv, Guarded, Step, Enabled;
      RunGuarded(Step(s, run[0]), run[1..]);
    }
  }

  /** Without a timer the guarantee is lost at once: a fan-out that reached a node leaves
      it carrying the request with no timer armed. */
  lemma UnguardedWithoutTimer(s: Proxy, m: Method, i: nat)
    requires Inv(s) && s.phase == Idle && !s.timer && i < |s.pairs| && Available(s.pairs[i])
    requires Classify(Named(s, m)) != ToSticky
    ensures !Guarded(ClientRequest(s, m, false))
  {
    var b := Opened(s, m);
    assert b.phase == Fanout && !b.timer && b.pairs == s.pairs;
    hide Inv, Opened, Classify, FanoutOrClose;
    FanoutUnguarded(b, i);
  }

  lemma FanoutUnguarded(b: Proxy, i: nat)
    requires !b.timer && i < |b.pairs| && Available(b.pairs[i])
    ensures !FanoutOrClose(b, false).timer && AnyInFlight(FanoutOrClose(b, false).pairs)
  {
    TargetsAre(b.pairs, |b.pairs|);
    hide Targets, SentEntries;
    assert InFlight(Active(DispatchFanout(b).pairs[i]));
  }

  // ---------------------------------------------------------------- the failing slot

  /** A connection that fails while it carries a request is its pair's active one, and the
      swap that follows disconnects exactly that one: the other slot is not touched by it. */
  lemma FailingSlotIsActive(s: Proxy, i: nat, k: Slot)
    requires Inv(s) && i < |s.pairs| && InFlight(Get(s.pairs[i], k))
    ensures k == s.pairs[i].active
    ensures var p := PutConn(s, i, k, Get(s.pairs[i], k).(state := Disconnected)).pairs[i];
            && Get(ReportError(p), k).state == Disconnected
            && Get(ReportError(p), Other(k)) == Get(s.pairs[i], Other(k))
            && ReportError(p).active == Other(k)
  {
  }

  // ---------------------------------------------------------------- races end

  function Unretried(r: seq<bool>): nat {
    if r == [] then 0 else Unretried(r[1..]) + (if r[0] then 0 else 1)
  }

  function Measure(s: Proxy): int { s.pending + Unretried(s.retried) }

  lemma {:induction false} UnretriedDrops(r: seq<bool>, i: nat)
    requires i < |r| && !r[i]
    ensures Unretried(r[i := true]) == Unretried(r) - 1
  {
    if i > 0 {
      UnretriedDrops(r[1..], i - 1);
      assert r[i := true][1..] == r[1..][i - 1 := true];
    }
  }

  lemma {:induction false} UnretriedBound(r: seq<bool>)
    ensures Unretried(r) <= |r|
  {
    if r != [] { UnretriedBound(r[1..]); }
  }

  /** A node reports: it answers, or its connection breaks. */
  predicate Upstream(s: Proxy, e: Event)
    requires Enabled(s, e)
  {
    e.Response? || (e.ConnectionLost? && InFlight(Get(s.pairs[e.node], e.slot)))
  }

  lemma OnResponseDrops(s: Proxy, i: nat, k: Slot, r: Reply)
    requires s.phase != Idle && i < |s.pairs| && (s.winner != -1 ==> 0 <= s.winner < |s.pairs|)
    ensures var t := OnResponse(s, i, k, r);
            t.phase == Idle || (t.pending == s.pending - 1 && t.retried == s.retried)
  {
    hide FallbackChoice, Judge, RaceComplete;
    var c := Get(s.pairs[i], k);
    var f := Judge(Finish(s, i, Answered(r.isError), c.sock.held), i, c, r);
    RaceCompleteIdle(f);
    RaceCompleteIdle(FallbackChoice(f));
  }

  lemma NodeFailedDrops(s: Proxy, i: nat, req: nat)
    ensures NodeFailed(s, i, req).phase == Idle
            || (NodeFailed(s, i, req).pending == s.pending - 1 && NodeFailed(s, i, req).retried == s.retried)
  {
    hide RaceComplete;
    RaceCompleteIdle(Finish(s.(lastError := i), i, Failed, req));
    RaceCompleteIdle(CloseClient(Finish(s.(lastError := i), i, Failed, req)));
  }

  lemma OnErrorDrops(s: Proxy, i: nat, k: Slot)
    requires s.phase != Idle && i < |s.pairs| == |s.retried|
    ensures var t := OnError(s, i, k);
            t.phase == Idle || Measure(t) < Measure(s)
  {
    hide NodeFailed, ReportError, SendIfAvailable;
    if !s.retried[i] { UnretriedDrops(s.retried, i); }
    hide Unretried;
    var req := Get(s.pairs[i], k).req;
    NodeFailedDrops(s, i, req);
    NodeFailedDrops(s.(pairs := s.pairs[i := ReportError(s.pairs[i])], retried := s.retried[i := true]), i, req);
  }

  lemma RaceCompleteIdle(s: Proxy)
    ensures RaceComplete(s).phase == Idle
  {
  }

  /** Every report of a node ends the race or makes the measure smaller. */
  lemma UpstreamDrops(s: Proxy, e: Event)
    requires Inv(s) && s.phase != Idle && Enabled(s, e) && Upstream(s, e)
    ensures Step(s, e).phase == Idle || Measure(Step(s, e)) < Measure(s)
  {
    hide Summary, FirstSuccess, ClientRequest, OnResponse, OnError, OnTimeout, OnNotify, Unretried, ConnectEnds, Rotate;
    match e
    case Response(i, k, r, got, torn) =>
      OnResponseDrops(PutConn(s, i, k, TakeReply(Get(s.pairs[i], k), r, got, torn)), i, k, r);
    case ConnectionLost(i, k) =>
      OnErrorDrops(PutConn(s, i, k, Get(s.pairs[i], k).(state := Disconnected)), i, k);
  }

  /** No other event changes the measure of a race. */
  lemma OthersSpareMeasure(s: Proxy, e: Event)
    requires Inv(s) && s.phase != Idle && Enabled(s, e) && !Upstream(s, e)
    ensures Step(s, e).phase == Idle || Measure(Step(s, e)) == Measure(s)
  {
    hide Summary, FirstSuccess, OnResponse, OnError, OnTimeout, Unretried, ConnectEnds, Rotate, Dispatch;
    if e.Timeout? {
      ClientChange(s, true, e.stale);
      TimeoutEndsAll(Fired(s, e.stale));
    }
  }

  /** How many node reports a run that stays within one race contains; -1 as soon as the
      proxy was idle in between. */
  function Reports(s: Proxy, run: seq<Event>): int
    requires Legal(s, run)
    decreases |run|
  {
    if s.phase == Idle then -1
    else if run == [] then 0
    else
      var rest := Reports(Step(s, run[0]), run[1..]);
      if rest == -1 then -1 else rest + (if Upstream(s, run[0]) then 1 else 0)
  }

  /** A race outlives fewer node reports than twice the number of nodes. */
  lemma {:induction false} RaceEnds(s: Proxy, run: seq<Event>)
    requires Inv(s) && Legal(s, run)
    ensures Reports(s, run) < Measure(s) <= 2 * |s.pairs| || s.phase == Idle
    decreases |run|
  {
    if s.phase != Idle {
      UnretriedBound(s.retried);
      if run != [] {
        StepKeeps(s, run[0]);
        if Upstream(s, run[0]) { UpstreamDrops(s, run[0]); } else { OthersSpareMeasure(s, run[0]); }
        hide Step, Measure;
        RaceEnds(Step(s, run[0]), run[1..]);
      }
    }
  }
}
