/**
  The guarantees of the race engine for whole runs of the proxy, from its creation on.
 */
module RaceTheorems {
  import opened RaceModel
  import opened RaceLog
  import opened RaceSafety
  import opened RaceTimers
  import opened RaceRefinement
  import opened RaceSockets

  /** Whatever the nodes, the client, the timers and the notifications do: every request is
      decided exactly once, by the rule of `Choose`; no request goes to a node more than
      twice; a getblocktemplate is sticky only after a race since the latest notify; and
      the sticky node exists. */
  lemma EveryRunIsLawful(connects: seq<(ConnectOutcome, ConnectOutcome)>, run: seq<Event>)
    requires Legal(Init(connects), run)
    ensures var s := Run(Init(connects), run);
            var d := Summary(s.log);
            && d.lawful
            && d.requests == d.decisions + (if d.open then 1 else 0)
            && (d.open ==> s.phase != Idle)
            && (forall i: nat :: Sends(s.log, i) <= 2)
            && (s.stickyNode == -1 || 0 <= s.stickyNode < |s.pairs|)
  {
    InitInv(connects);
    RunKeeps(Init(connects), run);
    var s := Run(Init(connects), run);
    OneDecisionEach(s.log);
    forall i: nat ensures Sends(s.log, i) <= 2 { AtMostTwoSends(s.log, i); }
  }

  /** In every run in which timers can be created, a connection that carries a request is
      watched by a timer. */
  lemma EveryRunIsGuarded(connects: seq<(ConnectOutcome, ConnectOutcome)>, run: seq<Event>)
    requires Legal(Init(connects), run)
    requires forall j :: 0 <= j < |run| && run[j].Request? ==> run[j].timerOk
    ensures Guarded(Run(Init(connects), run))
  {
    InitInv(connects);
    InitGuarded(connects);
    hide Init, Inv, Guarded, Legal, Run;
    RunGuarded(Init(connects), run);
  }

  lemma InitGuarded(connects: seq<(ConnectOutcome, ConnectOutcome)>)
    ensures Guarded(Init(connects))
  {
    forall i | 0 <= i < |connects| ensures !InFlight(Active(Init(connects).pairs[i])) {
    }
  }

  /** A client only gets answers to the request it made, and every node is counted once,
      exactly in the runs in which no node reports untimely. */
  lemma GenuineExactlyWhenTimely(connects: seq<(ConnectOutcome, ConnectOutcome)>, run: seq<Event>)
    requires Legal(Init(connects), run)
    ensures Genuine(Run(Init(connects), run).log) <==> TimelyRun(Init(connects), run)
    ensures TimelyRun(Init(connects), run) ==> OncePerNode(Summary(Run(Init(connects), run).log))
  {
    InitInv(connects);
    RunGenuineExactly(Init(connects), run);
    RunKeeps(Init(connects), run);
    hide Init, Legal, Run, Genuine, TimelyRun, OncePerNode;
    if TimelyRun(Init(connects), run) { GenuineOncePerNode(Run(Init(connects), run).log); }
  }

  /** In every calm run this is so. */
  lemma EveryCalmRunIsGenuine(connects: seq<(ConnectOutcome, ConnectOutcome)>, run: seq<Event>)
    requires Legal(Init(connects), run) && CalmRun(Init(connects), run)
    ensures Genuine(Run(Init(connects), run).log)
    ensures OncePerNode(Summary(Run(Init(connects), run).log))
  {
    InitInv(connects);
    InitSocks(connects);
    CalmRunIsTimely(Init(connects), run);
    GenuineExactlyWhenTimely(connects, run);
  }

  lemma InitSocks(connects: seq<(ConnectOutcome, ConnectOutcome)>)
    ensures SocksOk(Init(connects).pairs)
  {
    forall i | 0 <= i < |connects| ensures PairSocks(Init(connects).pairs[i]) {
      var p := Pair(FreshConn, FreshConn.(standbyCb := true), 0, false);
      ConnectSock(p, 0, connects[i].0);
      ConnectSock(Connect(p, 0, connects[i].0), 1, connects[i].1);
      hide Connect;
    }
  }

  /** A broadcast is never left early: whenever the proxy is idle or takes the next request,
      the broadcast before it is over, after a timeout or as many outcomes as it has
      participants; if no node reports untimely, every participant is among them. */
  lemma BroadcastsAreHeardOut(connects: seq<(ConnectOutcome, ConnectOutcome)>, run: seq<Event>)
    requires Legal(Init(connects), run)
    ensures var s := Run(Init(connects), run);
            && (s.phase == Idle ==> Heard(Summary(s.log)))
            && (forall j :: 0 <= j < |s.log| && s.log[j].Routed? ==> Heard(Summary(s.log[..j])))
    ensures var s := Run(Init(connects), run);
            TimelyRun(Init(connects), run) ==>
              && (s.phase == Idle ==> AllHeard(Summary(s.log)))
              && (forall j :: 0 <= j < |s.log| && s.log[j].Routed? ==> AllHeard(Summary(s.log[..j])))
  {
    InitInv(connects);
    RunKeeps(Init(connects), run);
    GenuineExactlyWhenTimely(connects, run);
    var s := Run(Init(connects), run);
    hide Init, Legal, Run, Genuine, TimelyRun, Heard, AllHeard;
    if s.phase == Idle { OverHeard(s.log); }
    hide Summary;
    forall j | 0 <= j < |s.log| && s.log[j].Routed?
      ensures Heard(Summary(s.log[..j])) && (Genuine(s.log) ==> AllHeard(Summary(s.log[..j])))
    {
      HeardBeforeNext(s.log, j);
    }
  }

  // ---------------------------------------------------------------- a wrong answer, from the start

  const ONE_NODE: seq<(ConnectOutcome, ConnectOutcome)> := [(Immediate, Refused)]

  const ASKED: seq<Event> := [ClientConnects, Request(OtherMethod, true), SendDone(0, 0)]

  /** With one node that connects at once, a client that asks and a node that is slow to
      answer lead to the state from which `LateAnswerForwarded` starts. */
  lemma SlowNode()
    ensures Legal(Init(ONE_NODE), ASKED)
    ensures var s := Run(Init(ONE_NODE), ASKED);
            && s.phase != Idle && s.timer && s.req == 1 && Waiting(s, 0) && s.pairs[0].active == 0
            && Classify(Named(s, OtherMethod)) != ToSticky
  {
  }

  /** The client that asks again after the timeout gets the answer to its first request. */
  lemma FirstAnswerToSecondRequest(r: Reply)
    requires !r.isError
    ensures var again := [Timeout(false), ClientConnects, Request(OtherMethod, true), SendDone(0, 0)];
            && Legal(Init(ONE_NODE), ASKED) && Legal(Run(Init(ONE_NODE), ASKED), again)
            && var t := Run(Run(Init(ONE_NODE), ASKED), again);
            && t.req == 2 && WellFormed(t) && Enabled(t, Response(0, 0, r, 1, false))
            && var u := Step(t, Response(0, 0, r, 1, false));
            && |t.log| <= |u.log| && Forwarded(0, 1, true) in u.log[|t.log|..]
  {
    InitInv(ONE_NODE);
    SlowNode();
    hide Init, Legal, Run, Inv, Waiting, Classify, Step, Enabled, WellFormed, ONE_NODE, ASKED;
    RunKeeps(Init(ONE_NODE), ASKED);
    LateAnswerForwarded(Run(Init(ONE_NODE), ASKED), 0, OtherMethod, r);
  }

  // ---------------------------------------------------------------- block height

  lemma ErrorHeight(s: Proxy, i: nat, k: Slot)
    requires i < |s.pairs| == |s.retried|
    ensures OnError(s, i, k).lastHeight == s.lastHeight
  {
    hide ReportError, SendIfAvailable, Reset, AnyInFlight, NodeFailed;
  }

  lemma FinishHeight(s: Proxy, i: nat, o: Outcome, req: nat)
    ensures Finish(s, i, o, req).lastHeight == s.lastHeight
    ensures Finish(s, i, o, req).pairs == s.pairs && Finish(s, i, o, req).winner == s.winner
  {
  }

  lemma ResponseHeight(s: Proxy, i: nat, k: Slot, r: Reply)
    requires i < |s.pairs| && (s.phase != Idle && s.winner != -1 ==> 0 <= s.winner < |s.pairs|)
    ensures OnResponse(s, i, k, r).lastHeight >= s.lastHeight
  {
    hide Judge, FallbackChoice, AnyInFlight, ResetParticipant, Tick, ResetIfInFlight, Finish;
    FinishHeight(s, i, RaceModel.Answered(r.isError), Get(s.pairs[i], k).sock.held);
  }

  lemma RequestHeight(s: Proxy, m: Method, timerOk: bool)
    requires StickyValid(s)
    ensures ClientRequest(s, m, timerOk).lastHeight == s.lastHeight
  {
    hide FanoutOrClose, DispatchSticky, Classify;
  }

  /** The last known block height never decreases. */
  lemma HeightNeverDecreases(s: Proxy, e: Event)
    requires WellFormed(s) && Enabled(s, e)
    ensures Step(s, e).lastHeight >= s.lastHeight
  {
    hide ClientRequest, OnResponse, Lose, OnTimeout, ConnectEnds, Rotate, TakeReply, TakeData, SendSome, SendComplete;
    match e
    case Request(m, timerOk) => RequestHeight(s, m, timerOk);
    case Response(i, k, r, got, torn) =>
      ResponseHeight(PutConn(s, i, k, TakeReply(Get(s.pairs[i], k), r, got, torn)), i, k, r);
    case ConnectionLost(i, k) => LoseHeight(s, i, k);
    case Timeout(stale) => TimeoutHeight(Fired(s, stale));
    case _ =>
  }

  lemma LoseHeight(s: Proxy, i: nat, k: Slot)
    requires i < |s.pairs| == |s.retried|
    ensures Lose(s, i, k).lastHeight == s.lastHeight
  {
    hide OnError;
    ErrorHeight(PutConn(s, i, k, Get(s.pairs[i], k).(state := Disconnected)), i, k);
  }

  lemma TimeoutHeight(s: Proxy)
    ensures OnTimeout(s).lastHeight >= s.lastHeight
  {
    if s.phase != Idle {
      var b := BestOnTimeout(Note(s.(pending := 0), TimedOut));
      hide BestOnTimeout, RaceComplete;
      CompleteHeight(b);
      CompleteHeight(CloseClient(b));
    }
  }

  lemma CompleteHeight(s: Proxy)
    ensures RaceComplete(s).lastHeight == s.lastHeight
  {
    hide ResetParticipant, Tick;
  }

  lemma {:induction false} HeightOverRun(s: Proxy, run: seq<Event>)
    requires Inv(s) && Legal(s, run)
    ensures Run(s, run).lastHeight >= s.lastHeight
    decreases |run|
  {
    if run != [] {
      StepKeeps(s, run[0]);
      HeightNeverDecreases(s, run[0]);
      hide Step, Enabled, Inv;
      HeightOverRun(Step(s, run[0]), run[1..]);
    }
  }
}
