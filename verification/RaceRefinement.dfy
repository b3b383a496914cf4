/**
  When the answer a client gets belongs to the request it made.

  The proxy does not record which request a connection answers.  Three things can go wrong:
  a connection that still drains an older request reports during a newer one, a connection
  that has already answered reports again, and a connection that was given up without an
  answer is used again while its socket still owes that answer.  The log of a run is `Genuine` -- every
  outcome and every retry is of a node the current request was sent to and that had not
  finished, every forwarded response answers the current request -- if and only if each
  event of a node is `Timely`.
 */
module RaceRefinement {
  import opened Options
  import opened RaceModel
  import opened RaceLog
  import opened RaceSafety

  predicate NodeFinished(outcomes: seq<Entry>, i: nat) {
    exists j :: 0 <= j < |outcomes| && outcomes[j].Finished? && outcomes[j].node == i
  }

  predicate GenuineEntry(d: Digest, e: Entry) {
    && (e.Finished? ==> e.req == d.requests && e.node in d.sent && !NodeFinished(d.outcomes, e.node))
    && (e.Resent? ==> e.node in d.sent && !NodeFinished(d.outcomes, e.node))
    && (e.Forwarded? ==> e.req == d.requests && NodeFinished(d.outcomes, e.node))
  }

  /** Every outcome, retry and forwarded answer belongs to the request being served. */
  predicate Genuine(log: seq<Entry>) {
    log == [] ||
    (Genuine(log[..|log| - 1]) && GenuineEntry(Summary(log[..|log| - 1]), log[|log| - 1]))
  }

  lemma GenuineExtend(log: seq<Entry>, e: Entry)
    ensures Genuine(log + [e]) <==> Genuine(log) && GenuineEntry(Summary(log), e)
  {
    assert (log + [e])[..|log|] == log;
  }

  /** A connection of node `i` that is in flight either carries the current request, and then
      has answered exactly if the node is counted as finished, or it drains an older one and
      the node does not take part.  The latter is excluded where the proxy is `strict`. */
  predicate Placed(c: Conn, d: Digest, i: nat, strict: bool) {
    if c.req == d.requests then i in d.sent && (Done(c) <==> NodeFinished(d.outcomes, i))
    else !strict && i !in d.sent
  }

  predicate OwnBut(pairs: seq<Pair>, d: Digest, but: int, strict: bool) {
    forall i :: 0 <= i < |pairs| && i != but && InFlight(Active(pairs[i])) ==> Placed(Active(pairs[i]), d, i, strict)
  }

  predicate Own(s: Proxy, d: Digest, strict: bool) { s.phase != Idle ==> OwnBut(s.pairs, d, -1, strict) }

  predicate Genuinely(s: Proxy, strict: bool) {
    Inv(s) && Own(s, Summary(s.log), strict) && Genuine(s.log)
  }

  /** The check that the proxy does not make: a connection that reports or fails while a
      request is being served carries that request and has not reported before, and the
      answer that its socket owes next is the one to that request. */
  predicate Timely(s: Proxy, e: Event)
    requires Enabled(s, e)
  {
    (e.Response? || e.ConnectionLost?) && s.phase != Idle && InFlight(Get(s.pairs[e.node], e.slot)) ==>
      var c := Get(s.pairs[e.node], e.slot);
      c.req == s.req && !Done(c) && (e.Response? ==> Next(c.sock) == s.req)
  }

  /** No connection still carries a request when a new one is dispatched. */
  predicate Settled(s: Proxy, e: Event) { e.Request? && s.phase == Idle ==> !AnyInFlight(s.pairs) }

  // ---------------------------------------------------------------- the log

  predicate Silent(e: Entry) { !e.Finished? && !e.Resent? && !e.Forwarded? }

  /** `log` was extended by entries that are neither outcomes nor retries nor answers. */
  predicate Quietly(log: seq<Entry>, log': seq<Entry>) {
    |log| <= |log'| && log'[..|log|] == log && forall j :: |log| <= j < |log'| ==> Silent(log'[j])
  }

  lemma {:induction false} GenuineQuietly(log: seq<Entry>, log': seq<Entry>)
    requires Genuine(log) && Quietly(log, log')
    ensures Genuine(log')
    decreases |log'|
  {
    if |log'| == |log| {
      assert log' == log;
    } else {
      var n := |log'| - 1;
      assert log'[..n][..|log|] == log;
      GenuineQuietly(log, log'[..n]);
    }
  }

  lemma QuietlyTrans(a: seq<Entry>, b: seq<Entry>, c: seq<Entry>)
    requires Quietly(a, b) && Quietly(b, c)
    ensures Quietly(a, c)
  {
    assert c[..|a|] == c[..|b|][..|a|];
  }

  lemma RaceCompleteLog(s: Proxy)
    ensures Quietly(s.log, RaceComplete(s).log)
  {
  }

  lemma NoteQuietly(log: seq<Entry>, e: Entry)
    requires Silent(e)
    ensures Quietly(log, log + [e])
  {
  }

  // ---------------------------------------------------------------- responses

  /** Node `i` has just answered the current request. */
  predicate Answering(s: Proxy, d: Digest, i: nat, req: nat, strict: bool) {
    Genuine(s.log) && req == d.requests && NodeFinished(d.outcomes, i) && Own(s, d, strict)
  }

  lemma FinishedExtend(outs: seq<Entry>, e: Entry, j: nat)
    requires e.Finished?
    ensures NodeFinished(outs + [e], j) <==> NodeFinished(outs, j) || e.node == j
  {
    assert (outs + [e])[|outs|] == e;
    if NodeFinished(outs, j) {
      var k :| 0 <= k < |outs| && outs[k].Finished? && outs[k].node == j;
      assert (outs + [e])[k] == outs[k];
    }
  }

  lemma FinishAnswering(s: Proxy, i: nat, o: Outcome, req: nat, strict: bool)
    requires Inv(s) && s.phase != Idle && i < |s.pairs| && Genuine(s.log)
    requires var d := Summary(s.log);
             req == s.req && i in d.sent && !NodeFinished(d.outcomes, i) && OwnBut(s.pairs, d, i, strict)
    requires InFlight(Active(s.pairs[i])) ==> Done(Active(s.pairs[i])) && Active(s.pairs[i]).req == req
    ensures var f := Finish(s, i, o, req); Answering(f, Summary(f.log), i, req, strict)
  {
    var e := Finished(i, o, req);
    GenuineExtend(s.log, e);
    Extend(s.log, e);
    hide Summary, FirstSuccess, Genuine, Choose;
    var d := Summary(s.log);
    var d' := Observe(d, e);
    forall j: nat ensures NodeFinished(d'.outcomes, j) <==> NodeFinished(d.outcomes, j) || j == i {
      FinishedExtend(d.outcomes, e, j);
    }
  }

  lemma ForwardAnswering(s: Proxy, t: Proxy, i: nat, req: nat, strict: bool)
    requires Answering(s, Summary(s.log), i, req, strict)
    requires t.log == s.log + [Forwarded(i, req, s.client)]
    requires t.pairs == s.pairs && t.req == s.req && t.phase == s.phase
    ensures Answering(t, Summary(t.log), i, req, strict)
  {
    var e := Forwarded(i, req, s.client);
    GenuineExtend(s.log, e);
    Extend(s.log, e);
    hide Summary, Genuine, Law;
  }

  lemma JudgeAnswering(s: Proxy, i: nat, c: Conn, r: Reply, strict: bool)
    requires Answering(s, Summary(s.log), i, c.sock.held, strict) && c.reply.Some?
    ensures var t := Judge(s, i, c, r); Answering(t, Summary(t.log), i, c.sock.held, strict)
  {
    JudgeLog(s, i, c, r);
    var t := Judge(s, i, c, r);
    hide Summary, Genuine, Judge;
    if t.log != s.log { ForwardAnswering(s, t, i, c.sock.held, strict); }
  }

  lemma JudgeLog(s: Proxy, i: nat, c: Conn, r: Reply)
    requires c.reply.Some?
    ensures var t := Judge(s, i, c, r);
            t.log == s.log || t.log == s.log + [Forwarded(i, c.sock.held, s.client)]
  {
  }

  lemma ConcludeGenuine(t: Proxy, i: nat, k: Slot, strict: bool)
    requires Judged(t, Summary(t.log), i) && Answering(t, Summary(t.log), i, Active(t.pairs[i]).sock.held, strict)
    requires Active(t.pairs[i]).recv && Active(t.pairs[i]).reply.Some?
    ensures var u := Conclude(t, i, k); Own(u, Summary(u.log), strict) && Genuine(u.log)
  {
    hide Summary, FirstSuccess, Genuine, RaceComplete, FallbackChoice;
    var g := if t.winner == -1 then FallbackChoice(t) else t;
    if t.pending <= 0 {
      if t.winner == -1 {
        LastErrorForwarded(t, Summary(t.log), i);
        ForwardAnswering(t, g, i, Active(t.pairs[i]).sock.held, strict);
      }
      RaceCompleteLog(g);
      RaceCompleteOwn(g, strict);
      GenuineQuietly(g.log, RaceComplete(g).log);
    }
  }

  /** The state in which a timely response has been judged. */
  lemma ResponseAnswering(s: Proxy, i: nat, k: Slot, r: Reply, got: nat, torn: bool, strict: bool)
    requires Genuinely(s, strict) && s.phase != Idle
    requires Enabled(s, Response(i, k, r, got, torn)) && Timely(s, Response(i, k, r, got, torn))
    ensures var t := PutConn(s, i, k, TakeReply(Get(s.pairs[i], k), r, got, torn));
            var c := Get(t.pairs[i], k);
            var u := Judge(Finish(t, i, Answered(r.isError), c.sock.held), i, c, r);
            && k == s.pairs[i].active && u.pairs == t.pairs
            && Judged(u, Summary(u.log), i) && Answering(u, Summary(u.log), i, c.sock.held, strict)
  {
    hide Summary, FirstSuccess, Genuine, Judge, Finish;
    var t := PutConn(s, i, k, TakeReply(Get(s.pairs[i], k), r, got, torn));
    PairsChange(s, t.pairs);
    var c := Get(t.pairs[i], k);
    FinishAnswering(t, i, Answered(r.isError), c.sock.held, strict);
    FinishKeeps(t, i, Answered(r.isError), c.sock.held);
    FinishPairs(t, i, Answered(r.isError), c.sock.held);
    var f := Finish(t, i, Answered(r.isError), c.sock.held);
    JudgeAnswering(f, i, c, r, strict);
    JudgeKeeps(f, i, c, r);
  }

  lemma ResponseGenuine(s: Proxy, i: nat, k: Slot, r: Reply, got: nat, torn: bool, strict: bool)
    requires Genuinely(s, strict) && s.phase != Idle
    requires Enabled(s, Response(i, k, r, got, torn)) && Timely(s, Response(i, k, r, got, torn))
    ensures var u := OnResponse(PutConn(s, i, k, TakeReply(Get(s.pairs[i], k), r, got, torn)), i, k, r);
            Own(u, Summary(u.log), strict) && Genuine(u.log)
  {
    ResponseAnswering(s, i, k, r, got, torn, strict);
    hide Summary, FirstSuccess, Genuine, Conclude, Judge, Finish, Genuinely, Timely, Judged, Answering;
    var t := PutConn(s, i, k, TakeReply(Get(s.pairs[i], k), r, got, torn));
    var c := Get(t.pairs[i], k);
    ConcludeGenuine(Judge(Finish(t, i, Answered(r.isError), c.sock.held), i, c, r), i, k, strict);
  }

  // ---------------------------------------------------------------- transport errors

  lemma NodeFailedGenuine(s: Proxy, i: nat, req: nat, strict: bool)
    requires Inv(s) && s.phase != Idle && i < |s.pairs| && Genuine(s.log)
    requires var d := Summary(s.log);
             req == s.req && i in d.sent && !NodeFinished(d.outcomes, i) && OwnBut(s.pairs, d, i, strict)
    requires InFlight(Active(s.pairs[i])) ==> Done(Active(s.pairs[i])) && Active(s.pairs[i]).req == req
    ensures var u := NodeFailed(s, i, req); Own(u, Summary(u.log), strict) && Genuine(u.log)
  {
    hide Summary, FirstSuccess, Genuine, Finish, RaceComplete;
    FinishAnswering(s.(lastError := i), i, Failed, req, strict);
    var f := Finish(s.(lastError := i), i, Failed, req);
    var g := if f.winner == -1 then CloseClient(f) else f;
    NoteQuietly(f.log, ClosedClient);
    RaceCompleteLog(g);
    QuietlyTrans(f.log, g.log, RaceComplete(g).log);
    GenuineQuietly(f.log, RaceComplete(g).log);
    RaceCompleteOwn(g, strict);
  }

  lemma RaceCompleteOwn(s: Proxy, strict: bool)
    ensures Own(RaceComplete(s), Summary(RaceComplete(s).log), strict)
  {
    hide Summary;
  }

  lemma RetryGenuine(s: Proxy, i: nat, req: nat, strict: bool)
    requires Inv(s) && s.phase != Idle && i < |s.pairs| && Genuine(s.log)
    requires var d := Summary(s.log);
             req == s.req && i in d.sent && !NodeFinished(d.outcomes, i) && OwnBut(s.pairs, d, i, strict)
    requires !InFlight(Active(s.pairs[i]))
    ensures var u := Retry(s, i, req); Own(u, Summary(u.log), strict) && Genuine(u.log)
  {
    hide Summary, FirstSuccess, Genuine, NodeFailed, Choose;
    if Available(s.pairs[i]) {
      GenuineExtend(s.log, Resent(i));
      Extend(s.log, Resent(i));
    } else {
      NodeFailedGenuine(s, i, req, strict);
    }
  }

  lemma LoseGenuine(s: Proxy, i: nat, k: Slot, strict: bool)
    requires Genuinely(s, strict) && s.phase != Idle && i < |s.pairs|
    requires var c := Get(s.pairs[i], k); InFlight(c) && c.req == s.req && !Done(c)
    ensures var u := Lose(s, i, k); Own(u, Summary(u.log), strict) && Genuine(u.log)
  {
    hide Summary, FirstSuccess, Genuine, NodeFailed, Retry, ReportError;
    assert k == s.pairs[i].active;
    var req := Get(s.pairs[i], k).req;
    var t := PutConn(s, i, k, Get(s.pairs[i], k).(state := Disconnected));
    PairsChange(s, t.pairs);
    if t.retried[i] {
      NodeFailedGenuine(t, i, req, strict);
    } else {
      SwapKeeps(t, i);
      PairFacts(t.pairs[i], t.req);
      RetryGenuine(t.(pairs := t.pairs[i := ReportError(t.pairs[i])], retried := t.retried[i := true]), i, req, strict);
    }
  }

  // ---------------------------------------------------------------- dispatch

  lemma RequestGenuine(s: Proxy, m: Method, timerOk: bool, strict: bool)
    requires Genuinely(s, strict) && (strict && s.phase == Idle ==> !AnyInFlight(s.pairs))
    ensures var u := ClientRequest(s, m, timerOk); Own(u, Summary(u.log), strict) && Genuine(u.log)
  {
    hide Summary, FirstSuccess, Genuine, Opened, FanoutOrClose, DispatchSticky;
    if s.phase == Idle {
      var b := Opened(s, m);
      BeginKeeps(s, m);
      BeginIs(s, m);
      assert Unserved(b, strict);
      GenuineQuietly(s.log, b.log);
      if b.phase == Sticky { StickyGenuine(b, timerOk, strict); } else { FanoutGenuine(b, timerOk, strict); }
    }
  }

  /** No connection carries the request that is about to be sent. */
  predicate Unserved(b: Proxy, strict: bool) {
    forall i :: 0 <= i < |b.pairs| && InFlight(Active(b.pairs[i])) ==> !strict && Active(b.pairs[i]).req < b.req
  }

  lemma BeginIs(s: Proxy, m: Method)
    ensures var b := Opened(s, m); Quietly(s.log, b.log) && b.pairs == s.pairs && b.req == s.req + 1
  {
  }

  lemma FanoutGenuine(b: Proxy, timerOk: bool, strict: bool)
    requires Begun(b, Summary(b.log)) && b.phase == Fanout && Unserved(b, strict) && Genuine(b.log)
    ensures var u := FanoutOrClose(b, timerOk); Own(u, Summary(u.log), strict) && Genuine(u.log)
  {
    hide Summary, FirstSuccess, Genuine, DispatchFanout, OwnBut;
    DispatchFanoutGenuine(b, strict);
    var d := DispatchFanout(b);
    NoteQuietly(d.log, ClosedClient);
    GenuineQuietly(d.log, d.log + [ClosedClient]);
  }

  lemma DispatchFanoutGenuine(b: Proxy, strict: bool)
    requires Begun(b, Summary(b.log)) && Unserved(b, strict) && Genuine(b.log)
    ensures var d := DispatchFanout(b); OwnBut(d.pairs, Summary(d.log), -1, strict) && Genuine(d.log)
  {
    hide Summary, FirstSuccess, Genuine, Targets;
    DispatchFanoutFacts(b);
    TargetsAre(b.pairs, |b.pairs|);
    var d := DispatchFanout(b);
    assert Quietly(b.log, d.log);
    GenuineQuietly(b.log, d.log);
    forall i | 0 <= i < |d.pairs| && InFlight(Active(d.pairs[i]))
      ensures Placed(Active(d.pairs[i]), Summary(d.log), i, strict)
    {
      assert Available(b.pairs[i]) || InFlight(Active(b.pairs[i]));
    }
  }

  lemma StickyGenuine(b: Proxy, timerOk: bool, strict: bool)
    requires Begun(b, Summary(b.log)) && b.phase == Sticky && Unserved(b, strict) && Genuine(b.log)
    ensures var u := DispatchSticky(b, timerOk); Own(u, Summary(u.log), strict) && Genuine(u.log)
  {
    hide Summary, FirstSuccess, Genuine, FanoutOrClose, SendSticky, DispatchSticky;
    if !StickyUp(b) {
      StickyFalls(b, timerOk);
      NoteQuietly(b.log, ClosedClient);
      GenuineQuietly(b.log, b.log + [ClosedClient]);
      if b.rpc != PreciousBlock {
        FanoutGenuine(FallenBack(b), timerOk, strict);
      }
    } else {
      StickySends(b, timerOk);
      SendStickyGenuine(b, strict);
    }
  }

  lemma SendStickyGenuine(b: Proxy, strict: bool)
    requires Begun(b, Summary(b.log)) && b.phase == Sticky && Unserved(b, strict) && Genuine(b.log)
    requires b.stickyNode != -1 && Available(b.pairs[b.stickyNode])
    ensures var u := SendSticky(b); OwnBut(u.pairs, Summary(u.log), -1, strict) && Genuine(u.log)
  {
    hide Summary, FirstSuccess, Genuine, Observe;
    var i := b.stickyNode;
    GenuineExtend(b.log, Sent(i));
    Extend(b.log, Sent(i));
    ObserveSent(Summary(b.log), i);
  }

  // ---------------------------------------------------------------- every step, every run

  lemma PairsGenuine(s: Proxy, pairs: seq<Pair>, strict: bool)
    requires Genuinely(s, strict) && SlotsOk(pairs, s.req) && NoneStarted(s.pairs, pairs)
    ensures Genuinely(s.(pairs := pairs), strict)
  {
    PairsChange(s, pairs);
    hide Summary, FirstSuccess, Genuine;
  }

  lemma ConnStepGenuine(s: Proxy, e: Event, strict: bool)
    requires Genuinely(s, strict) && Enabled(s, e) && OnlyConns(e)
    ensures Genuinely(Step(s, e), strict)
  {
    ConnStepIs(s, e);
    hide Step, Genuinely;
    PairsGenuine(s, Step(s, e).pairs, strict);
  }

  lemma ExpireGenuine(t: Proxy, strict: bool)
    requires Genuine(t.log)
    ensures var u := Expire(t); Own(u, Summary(u.log), strict) && Genuine(u.log)
  {
    hide Summary, Genuine, RaceComplete;
    var g := if t.winner == -1 then CloseClient(t) else t;
    NoteQuietly(t.log, ClosedClient);
    RaceCompleteLog(g);
    if t.winner == -1 { GenuineQuietly(t.log, g.log); }
    GenuineQuietly(g.log, RaceComplete(g).log);
    RaceCompleteOwn(g, strict);
  }

  lemma TimeoutGenuine(s: Proxy, strict: bool)
    requires Genuinely(s, strict)
    ensures Genuinely(OnTimeout(s), strict)
  {
    TimeoutKeeps(s);
    hide Summary, FirstSuccess, Genuine, Expire, WinGbt;
    if s.phase != Idle {
      var t0 := Note(s.(pending := 0), TimedOut);
      NoteQuietly(s.log, TimedOut);
      GenuineQuietly(s.log, t0.log);
      ExpireGenuine(t0, strict);
    }
  }

  /** With no race on, an event of a node changes neither the log nor the phase. */
  lemma IdleGenuine(s: Proxy, e: Event)
    requires WellFormed(s) && Enabled(s, e) && s.phase == Idle && (e.Response? || e.ConnectionLost?)
    ensures Step(s, e).phase == Idle && Step(s, e).log == s.log
  {
    hide ClientRequest, OnTimeout, OnNotify, ConnectEnds, Rotate, OnResponse, OnError, TakeReply;
    var c := Get(s.pairs[e.node], e.slot);
    if e.Response? {
      DrainOneIs(PutConn(s, e.node, e.slot, TakeReply(c, e.reply, e.got, e.torn)), e.node, e.slot, e.reply);
    } else {
      DrainOneIs(PutConn(s, e.node, e.slot, c.(state := Disconnected)), e.node, e.slot, Reply(false, 0, false));
    }
  }

  lemma DrainOneIs(s: Proxy, i: nat, k: Slot, r: Reply)
    requires WellFormed(s) && i < |s.pairs| && s.phase == Idle
    ensures OnResponse(s, i, k, r).phase == Idle && OnResponse(s, i, k, r).log == s.log
    ensures OnError(s, i, k).phase == Idle && OnError(s, i, k).log == s.log
  {
    hide Conclude, Judge, Retry, NodeFailed, Reset, AnyInFlight;
  }

  lemma LostIdle(s: Proxy, i: nat, k: Slot, strict: bool)
    requires Genuinely(s, strict) && i < |s.pairs| && !InFlight(Get(s.pairs[i], k))
    ensures Genuinely(Lose(s, i, k), strict)
  {
    hide Summary, FirstSuccess, Genuine, OnError;
    PairsGenuine(s, Lose(s, i, k).pairs, strict);
  }

  lemma StepGenuine(s: Proxy, e: Event, strict: bool)
    requires Genuinely(s, strict) && Enabled(s, e) && Timely(s, e) && (strict ==> Settled(s, e))
    ensures Genuinely(Step(s, e), strict)
  {
    StepKeeps(s, e);
    if s.phase == Idle && (e.Response? || e.ConnectionLost?) {
      IdleGenuine(s, e);
      hide *;
    } else {
      BusyStepGenuine(s, e, strict);
    }
  }

  lemma BusyStepGenuine(s: Proxy, e: Event, strict: bool)
    requires Genuinely(s, strict) && Enabled(s, e) && Timely(s, e) && (strict ==> Settled(s, e)) && Inv(Step(s, e))
    requires s.phase == Idle ==> !e.Response? && !e.ConnectionLost?
    ensures Genuinely(Step(s, e), strict)
  {
    hide Summary, InvFor, FirstSuccess, Genuine, ClientRequest, OnResponse, Lose, OnTimeout, ConnectEnds, Rotate;
    match e
    case ClientConnects =>
    case ClientLeaves =>
    case Request(m, timerOk) => RequestGenuine(s, m, timerOk, strict);
    case Response(i, k, r, got, torn) => ResponseGenuine(s, i, k, r, got, torn, strict);
    case ConnectionLost(i, k) =>
      if InFlight(Get(s.pairs[i], k)) { LoseGenuine(s, i, k, strict); } else { LostIdle(s, i, k, strict); }
    case Timeout(stale) =>
      ClientChange(s, true, stale);
      TimeoutGenuine(Fired(s, stale), strict);
    case BlockNotify =>
      GenuineExtend(s.log, Notified);
      Extend(s.log, Notified);
    case _ => ConnStepGenuine(s, e, strict);
  }

  // ---------------------------------------------------------------- untimely events

  lemma NotGenuine(log: seq<Entry>, e: Entry, log': seq<Entry>)
    requires !GenuineEntry(Summary(log), e) && log + [e] <= log'
    ensures !Genuine(log')
  {
    GenuineExtend(log, e);
    hide Summary, Genuine;
    assert log'[..|log| + 1] == log + [e];
    if Genuine(log') { GenuinePrefix(log', |log| + 1); }
  }

  lemma OnResponseStarts(s: Proxy, i: nat, k: Slot, r: Reply)
    requires WellFormed(s) && s.phase != Idle && i < |s.pairs| && Get(s.pairs[i], k).reply == Some(r)
    ensures s.log + [Finished(i, RaceModel.Answered(r.isError), Get(s.pairs[i], k).sock.held)] <= OnResponse(s, i, k, r).log
  {
    var c := Get(s.pairs[i], k);
    var f := Finish(s, i, RaceModel.Answered(r.isError), c.sock.held);
    JudgeLog(f, i, c, r);
    hide Judge, FallbackChoice, RaceComplete;
    var j := Judge(f, i, c, r);
    FallbackLog(j);
    RaceCompleteLog(j);
    RaceCompleteLog(FallbackChoice(j));
  }

  lemma FallbackLog(s: Proxy)
    ensures s.log <= FallbackChoice(s).log
  {
  }

  lemma NodeFailedStarts(s: Proxy, i: nat, req: nat)
    ensures s.log + [Finished(i, Failed, req)] <= NodeFailed(s, i, req).log
  {
    hide ResetParticipant, Tick;
  }

  /** An event that is not timely leaves an entry that does not belong to the request. */
  lemma UntimelyStep(s: Proxy, e: Event)
    requires Genuinely(s, false) && Enabled(s, e) && !Timely(s, e)
    ensures !Genuine(Step(s, e).log)
  {
    hide Summary, FirstSuccess, Genuine, OnResponse, NodeFailed, ReportError;
    var i, c := e.node, Get(s.pairs[e.node], e.slot);
    assert e.slot == s.pairs[i].active;
    if e.Response? {
      var t := PutConn(s, i, e.slot, TakeReply(c, e.reply, e.got, e.torn));
      OnResponseStarts(t, i, e.slot, e.reply);
      NotGenuine(s.log, Finished(i, RaceModel.Answered(e.reply.isError), Get(t.pairs[i], e.slot).sock.held), Step(s, e).log);
    } else {
      UntimelyLoss(s, i, e.slot);
    }
  }

  lemma UntimelyLoss(s: Proxy, i: nat, k: Slot)
    requires Genuinely(s, false) && s.phase != Idle && i < |s.pairs| && k == s.pairs[i].active
    requires var c := Active(s.pairs[i]); InFlight(c) && (c.req == s.req ==> Done(c))
    ensures !Genuine(Lose(s, i, k).log)
  {
    hide Summary, FirstSuccess, Genuine, NodeFailed, ReportError;
    var req := Get(s.pairs[i], k).req;
    var t := PutConn(s, i, k, Get(s.pairs[i], k).(state := Disconnected));
    if t.retried[i] {
      NodeFailedStarts(t, i, req);
      NotGenuine(s.log, Finished(i, Failed, req), Lose(s, i, k).log);
    } else {
      var r := t.(pairs := t.pairs[i := ReportError(t.pairs[i])], retried := t.retried[i := true]);
      if Available(r.pairs[i]) {
        NotGenuine(s.log, Resent(i), Lose(s, i, k).log);
      } else {
        NodeFailedStarts(r, i, req);
        NotGenuine(s.log, Finished(i, Failed, req), Lose(s, i, k).log);
      }
    }
  }

  // ---------------------------------------------------------------- the log only grows

  lemma FanoutLogGrows(s: Proxy, timerOk: bool)
    ensures s.log <= FanoutOrClose(s, timerOk).log
  {
    var d := DispatchFanout(s);
    assert s.log <= d.log;
    hide DispatchFanout;
  }

  lemma DispatchLogGrows(s: Proxy, timerOk: bool)
    requires StickyValid(s)
    ensures s.log <= Dispatch(s, timerOk).log
  {
    hide FanoutOrClose, DispatchSticky, SendIfAvailable;
    if s.phase != Sticky {
      FanoutLogGrows(s, timerOk);
    } else if StickyUp(s) {
      StickySends(s, timerOk);
    } else {
      StickyFalls(s, timerOk);
      FanoutLogGrows(FallenBack(s), timerOk);
    }
  }

  lemma RequestLogGrows(s: Proxy, m: Method, timerOk: bool)
    requires StickyValid(s)
    ensures s.log <= ClientRequest(s, m, timerOk).log
  {
    if s.phase == Idle {
      assert s.log <= Opened(s, m).log && StickyValid(Opened(s, m));
      hide Opened, Dispatch, StickyValid;
      DispatchLogGrows(Opened(s, m), timerOk);
    }
  }

  lemma LoseLogGrows(s: Proxy, i: nat, k: Slot)
    requires i < |s.pairs| == |s.retried|
    ensures s.log <= Lose(s, i, k).log
  {
    hide NodeFailed, ReportError, SendIfAvailable, Reset, AnyInFlight;
    var t := PutConn(s, i, k, Get(s.pairs[i], k).(state := Disconnected));
    NodeFailedStarts(t, i, Get(t.pairs[i], k).req);
    NodeFailedStarts(t.(pairs := t.pairs[i := ReportError(t.pairs[i])], retried := t.retried[i := true]), i,
                     Get(t.pairs[i], k).req);
  }

  lemma BestLogGrows(s: Proxy)
    ensures s.log <= BestOnTimeout(s).log
  {
  }

  lemma TimeoutLogGrows(s: Proxy)
    ensures s.log <= OnTimeout(s).log
  {
    if s.phase != Idle {
      var b := BestOnTimeout(Note(s.(pending := 0), TimedOut));
      BestLogGrows(Note(s.(pending := 0), TimedOut));
      hide BestOnTimeout, RaceComplete;
      RaceCompleteLog(b);
      RaceCompleteLog(CloseClient(b));
    }
  }

  lemma StepLogGrows(s: Proxy, e: Event)
    requires WellFormed(s) && Enabled(s, e)
    ensures s.log <= Step(s, e).log
  {
    hide Rotate, ConnectEnds, ClientRequest, Lose, OnTimeout, OnResponse, SendComplete, TakeData;
    match e
    case Request(m, timerOk) => RequestLogGrows(s, m, timerOk);
    case Response(i, k, r, got, torn) => ResponseLogGrows(PutConn(s, i, k, TakeReply(Get(s.pairs[i], k), r, got, torn)), i, k, r);
    case ConnectionLost(i, k) => LoseLogGrows(s, i, k);
    case Timeout(stale) => TimeoutLogGrows(Fired(s, stale));
    case _ =>
  }

  lemma ResponseLogGrows(s: Proxy, i: nat, k: Slot, r: Reply)
    requires WellFormed(s) && i < |s.pairs| && Get(s.pairs[i], k).reply == Some(r)
    ensures s.log <= OnResponse(s, i, k, r).log
  {
    if s.phase != Idle {
      hide OnResponse;
      OnResponseStarts(s, i, k, r);
    }
  }

  lemma {:induction false} RunLogGrows(s: Proxy, run: seq<Event>)
    requires Legal(s, run)
    ensures s.log <= Run(s, run).log
    decreases |run|
  {
    if run != [] {
      StepLogGrows(s, run[0]);
      hide Step, Enabled, WellFormed;
      RunLogGrows(Step(s, run[0]), run[1..]);
    }
  }

  // ---------------------------------------------------------------- runs

  ghost predicate TimelyRun(s: Proxy, run: seq<Event>)
    requires Legal(s, run)
    decreases |run|
  {
    run == [] || (Timely(s, run[0]) && TimelyRun(Step(s, run[0]), run[1..]))
  }

  /** The log stays genuine exactly if every event of the run is timely. */
  lemma {:induction false} RunGenuineExactly(s: Proxy, run: seq<Event>)
    requires Genuinely(s, false) && Legal(s, run)
    ensures Genuine(Run(s, run).log) <==> TimelyRun(s, run)
    decreases |run|
  {
    if run != [] {
      var t := Step(s, run[0]);
      if Timely(s, run[0]) {
        StepGenuine(s, run[0], false);
        hide Genuinely, Genuine, Step, Enabled, Timely;
        RunGenuineExactly(t, run[1..]);
      } else {
        UntimelyStep(s, run[0]);
        hide Genuine, Step, Enabled, Timely, Genuinely;
        RunLogGrows(t, run[1..]);
        assert Run(s, run).log[..|t.log|] == t.log;
        if Genuine(Run(s, run).log) { GenuinePrefix(Run(s, run).log, |t.log|); }
      }
    }
  }

  // ---------------------------------------------------------------- what this means

  /** The outcomes of a request come from different nodes, all of which it was sent to. */
  predicate OncePerNode(d: Digest) {
    && (forall j :: 0 <= j < |d.outcomes| ==> d.outcomes[j].Finished? && d.outcomes[j].node in d.sent)
    && (forall i, j :: 0 <= i < j < |d.outcomes| ==> d.outcomes[i].node != d.outcomes[j].node)
    && (forall i, j :: 0 <= i < j < |d.sent| ==> d.sent[i] != d.sent[j])
  }

  lemma {:induction false} GenuineOncePerNode(log: seq<Entry>)
    requires Genuine(log) && Summary(log).lawful
    ensures OncePerNode(Summary(log))
  {
    if log != [] {
      var front := log[..|log| - 1];
      var e := log[|log| - 1];
      assert Summary(front).lawful;
      GenuineOncePerNode(front);
      OncePerNodeExtend(Summary(front), e);
    }
  }

  lemma OncePerNodeExtend(d: Digest, e: Entry)
    requires OncePerNode(d) && GenuineEntry(d, e) && Law(d, e)
    ensures OncePerNode(Observe(d, e))
  {
    hide Choose;
    if e.Finished? {
      assert forall j :: 0 <= j < |d.outcomes| ==> d.outcomes[j].node != e.node;
    }
  }

  lemma {:induction false} DistinctNodes(nodes: seq<nat>)
    requires forall i, j :: 0 <= i < j < |nodes| ==> nodes[i] != nodes[j]
    ensures |(set n: nat | n in nodes)| == |nodes|
  {
    if nodes != [] {
      var m := |nodes| - 1;
      DistinctNodes(nodes[..m]);
      var rest: set<nat> := set n | n in nodes[..m];
      assert nodes == nodes[..m] + [nodes[m]];
      assert nodes[m] !in rest;
      assert (set n: nat | n in nodes) == rest + {nodes[m]};
    }
  }

  lemma SubsetOfSameSize(a: set<nat>, b: set<nat>)
    requires a <= b && |a| == |b|
    ensures a == b
  {
    assert |b - a| == 0;
  }

  /** A race that ends without a timeout has heard from every node the request was sent
      to: a broadcast stays open until all its participants have finished. */
  lemma AllParticipantsFinished(d: Digest)
    requires OncePerNode(d) && |d.outcomes| == |d.sent|
    ensures forall i :: i in d.sent ==> NodeFinished(d.outcomes, i)
  {
    var nodes := seq(|d.outcomes|, j requires 0 <= j < |d.outcomes| => d.outcomes[j].node);
    DistinctNodes(nodes);
    DistinctNodes(d.sent);
    var heard: set<nat> := set n | n in nodes;
    var asked: set<nat> := set n | n in d.sent;
    assert heard <= asked;
    SubsetOfSameSize(heard, asked);
    forall i | i in d.sent ensures NodeFinished(d.outcomes, i) {
      assert i in heard;
      var j :| 0 <= j < |nodes| && nodes[j] == i;
      assert d.outcomes[j].node == i;
    }
  }

  /** The end of a race in a genuine log: the log entry `RaceOver` comes after a
      timeout or after every participant has finished, and its client has been answered. */
  lemma RaceOverMeansAllHeard(log: seq<Entry>, j: nat)
    requires Genuine(log) && Summary(log).lawful && j < |log| && log[j].RaceOver?
    ensures var d := Summary(log[..j]);
            !d.open && (d.expired || forall i :: i in d.sent ==> NodeFinished(d.outcomes, i))
  {
    LawfulEverywhere(log);
    assert Lawful(log, j);
    GenuinePrefix(log, j);
    LawfulPrefix(log, j);
    hide Summary, Genuine, Choose;
    GenuineOncePerNode(log[..j]);
    var d := Summary(log[..j]);
    if !d.expired { AllParticipantsFinished(d); }
  }

  /** A broadcast that reached a node is over, its client answered, and the timeout fired or
      as many outcomes were counted as nodes took part. */
  predicate Heard(d: Digest) {
    d.broadcast && d.sent != [] ==> d.over && !d.open && (d.expired || |d.outcomes| == |d.sent|)
  }

  /** The same, with every participant among the outcomes. */
  predicate AllHeard(d: Digest) {
    Heard(d) && (d.broadcast && d.sent != [] && !d.expired ==> forall i :: i in d.sent ==> NodeFinished(d.outcomes, i))
  }

  lemma OverHeard(log: seq<Entry>)
    requires Summary(log).lawful && (var d := Summary(log); d.broadcast && d.sent != [] ==> d.over)
    ensures Heard(Summary(log)) && (Genuine(log) ==> AllHeard(Summary(log)))
  {
    var d := Summary(log);
    if d.broadcast && d.sent != [] {
      OverMeansAll(log);
      hide Summary, Genuine;
      if Genuine(log) && !d.expired {
        GenuineOncePerNode(log);
        AllParticipantsFinished(d);
      }
    }
  }

  /** No request follows a broadcast that has not been heard out. */
  lemma HeardBeforeNext(log: seq<Entry>, j: nat)
    requires Summary(log).lawful && j < |log| && log[j].Routed?
    ensures Heard(Summary(log[..j])) && (Genuine(log) ==> AllHeard(Summary(log[..j])))
  {
    LawfulEverywhere(log);
    assert Lawful(log, j);
    LawfulPrefix(log, j);
    hide Summary, Genuine, Choose, Heard, AllHeard;
    OverHeard(log[..j]);
    if Genuine(log) { GenuinePrefix(log, j); }
  }

  lemma {:induction false} GenuinePrefix(log: seq<Entry>, j: nat)
    requires Genuine(log) && j <= |log|
    ensures Genuine(log[..j])
    decreases |log|
  {
    if j == |log| {
      assert log[..j] == log;
    } else {
      GenuinePrefix(log[..|log| - 1], j);
      assert log[..|log| - 1][..j] == log[..j];
    }
  }

  lemma {:induction false} LawfulPrefix(log: seq<Entry>, j: nat)
    requires Summary(log).lawful && j <= |log|
    ensures Summary(log[..j]).lawful
    decreases |log|
  {
    hide Law;
    if j == |log| {
      assert log[..j] == log;
    } else {
      LawfulPrefix(log[..|log| - 1], j);
      assert log[..|log| - 1][..j] == log[..j];
    }
  }
}
