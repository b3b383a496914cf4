/**
  What a log of the proxy has to look like, stated without looking at the proxy: one
  decision per request, the decision is the one `Choose` names, nothing happens between
  the moment a decision is due and the decision, a node gets a request once and at most
  one retry, and a getblocktemplate goes to the sticky node only after a race that was
  started since the latest block notify.  After the end of a race nothing more is counted for
  it, and the next request comes only after the end of a broadcast that reached a node.
 */
module RaceLog {
  import opened RaceModel

  /** What matters of a history: the fields before `raced` are about the last request. */
  datatype Digest = Digest(
    open: bool,             // dispatched and not yet decided
    sent: seq<nat>,         // the nodes it was sent to
    resent: set<nat>,       // the nodes it was sent to a second time
    outcomes: seq<Entry>,   // the `Finished` entries, in order of arrival
    expired: bool,          // the timeout fired
    broadcast: bool,        // it was routed as a broadcast
    over: bool,             // the end of its race was reached with all connections reset
    raced: bool,            // a getblocktemplate race was started since the latest block notify
    requests: nat,
    decisions: nat,
    lawful: bool)

  const START := Digest(false, [], {}, [], false, false, false, false, 0, 0, true)

  predicate IsDecision(e: Entry) { e.Forwarded? || e.ClosedClient? }

  /** The history `d` with `e` added to it. */
  function Added(d: Digest, e: Entry): Digest {
    match e
    case Routed(m, r) =>
      d.(open := true, sent := [], resent := {}, outcomes := [], expired := false, broadcast := r == Broadcast,
         over := false, raced := d.raced || (m == GetBlockTemplate && r == Race), requests := d.requests + 1)
    case Sent(i) => d.(sent := d.sent + [i])
    case Resent(i) => d.(resent := d.resent + {i})
    case Finished(_, _, _) => d.(outcomes := d.outcomes + [e])
    case Forwarded(_, _, _) => d.(open := false, decisions := d.decisions + 1)
    case ClosedClient => d.(open := false, decisions := d.decisions + 1)
    case TimedOut => d.(expired := true)
    case RaceOver => d.(over := true)
    case Notified => d.(raced := false)
  }

  function Observe(d: Digest, e: Entry): Digest { Added(d, e).(lawful := d.lawful && Law(d, e)) }

  function Summary(log: seq<Entry>): Digest {
    if log == [] then START else Observe(Summary(log[..|log| - 1]), log[|log| - 1])
  }

  // ---------------------------------------------------------------- the choice

  /** The first node, in order of arrival, whose response was not an error; -1 if none. */
  function FirstSuccess(outcomes: seq<Entry>): int {
    if outcomes == [] then -1
    else
      var before := FirstSuccess(outcomes[..|outcomes| - 1]);
      var e := outcomes[|outcomes| - 1];
      if before != -1 then before
      else if e.Finished? && e.outcome == Answered(false) then e.node
      else -1
  }

  datatype Choice = Answer(node: int) | Hangup | Wait

  /** The first success; without one, after a timeout or when nobody took the request, a
      hangup; when everybody has finished, the last to finish decides; otherwise wait. */
  function Choose(d: Digest): Choice {
    if FirstSuccess(d.outcomes) != -1 then Answer(FirstSuccess(d.outcomes))
    else if d.expired then Hangup
    else if |d.outcomes| < |d.sent| then Wait
    else if d.outcomes == [] then Hangup
    else
      var e := d.outcomes[|d.outcomes| - 1];
      if e.Finished? && e.outcome.Answered? then Answer(e.node) else Hangup
  }

  /** May `e` follow a history summarised by `d`? */
  predicate Law(d: Digest, e: Entry) {
    && (d.open && Choose(d) != Wait ==> e.Sent? || IsDecision(e))
    && match e
       case Routed(m, r) =>
         !d.open && (m == GetBlockTemplate && r == ToSticky ==> d.raced) && (d.broadcast && d.sent != [] ==> d.over)
       case Sent(i) => d.outcomes == [] && i !in d.sent && !d.over
       case Resent(i) => i !in d.resent && !d.over
       case Finished(_, _, _) => !d.over
       case TimedOut => !d.over
       case Forwarded(i, _, _) => d.open && Choose(d) == Answer(i)
       case ClosedClient => d.open && Choose(d) == Hangup
       case RaceOver => !d.open && (d.expired || |d.outcomes| == |d.sent|)
       case _ => true
  }

  lemma Extend(log: seq<Entry>, e: Entry)
    ensures Summary(log + [e]) == Observe(Summary(log), e)
  {
    assert (log + [e])[..|log|] == log;
  }

  lemma FirstSuccessExtend(outs: seq<Entry>, e: Entry)
    ensures FirstSuccess(outs + [e]) ==
            if FirstSuccess(outs) != -1 then FirstSuccess(outs)
            else if e.Finished? && e.outcome == Answered(false) then e.node else -1
  {
    assert (outs + [e])[..|outs|] == outs;
  }

  // ---------------------------------------------------------------- what a lawful log means

  predicate Lawful(log: seq<Entry>, j: nat)
    requires j < |log|
  {
    Law(Summary(log[..j]), log[j])
  }

  lemma LawfulNext(log: seq<Entry>)
    requires log != []
    ensures Summary(log).lawful <==> Summary(log[..|log| - 1]).lawful && Lawful(log, |log| - 1)
  {
    hide Law, Added;
  }

  lemma LawfulFront(log: seq<Entry>, n: nat, j: nat)
    requires j < n <= |log|
    ensures Lawful(log[..n], j) <==> Lawful(log, j)
  {
    hide Law, Summary;
    assert log[..n][..j] == log[..j];
  }

  /** Every entry of a lawful log obeys the law of its history, and conversely. */
  lemma {:induction false} LawfulEverywhere(log: seq<Entry>)
    ensures Summary(log).lawful <==> forall j :: 0 <= j < |log| ==> Lawful(log, j)
  {
    if log != [] {
      var n := |log| - 1;
      hide *;
      LawfulEverywhere(log[..n]);
      LawfulNext(log);
      forall j | 0 <= j < n ensures Lawful(log[..n], j) <==> Lawful(log, j) { LawfulFront(log, n, j); }
    }
  }

  lemma ObserveLawful(d: Digest, e: Entry)
    requires Observe(d, e).lawful
    ensures d.lawful
    ensures var d' := Observe(d, e);
            && d'.requests == d.requests + (if e.Routed? then 1 else 0)
            && d'.decisions == d.decisions + (if IsDecision(e) then 1 else 0)
            && (d'.open <==> e.Routed? || (d.open && !IsDecision(e)))
            && (e.Routed? ==> !d.open) && (IsDecision(e) ==> d.open)
    ensures forall i :: i in Observe(d, e).sent <==> !e.Routed? && (e == Sent(i) || i in d.sent)
    ensures forall i :: i in Observe(d, e).resent <==> !e.Routed? && (e == Resent(i) || i in d.resent)
    ensures e.Sent? ==> e.node !in d.sent
    ensures e.Resent? ==> e.node !in d.resent
  {
    hide Choose;
  }

  /** Requests and decisions alternate: every request but an open last one has exactly
      one decision. */
  lemma {:induction false} OneDecisionEach(log: seq<Entry>)
    requires Summary(log).lawful
    ensures var d := Summary(log); d.requests == d.decisions + (if d.open then 1 else 0)
  {
    if log != [] {
      var front := log[..|log| - 1];
      assert Summary(log) == Observe(Summary(front), log[|log| - 1]);
      ObserveLawful(Summary(front), log[|log| - 1]);
      hide Observe, Summary;
      OneDecisionEach(front);
    }
  }

  lemma ObserveOver(d: Digest, e: Entry)
    requires Observe(d, e).lawful && Observe(d, e).over
    requires d.over ==> !d.open && (d.expired || |d.outcomes| == |d.sent|)
    ensures var d' := Observe(d, e); !d'.open && (d'.expired || |d'.outcomes| == |d'.sent|)
  {
    hide Choose;
  }

  /** The end of a race is recorded after its decision and after a timeout or as many outcomes
      as nodes took part; nothing is counted afterwards. */
  lemma {:induction false} OverMeansAll(log: seq<Entry>)
    requires Summary(log).lawful && Summary(log).over
    ensures var d := Summary(log); !d.open && (d.expired || |d.outcomes| == |d.sent|)
  {
    if log != [] {
      var front := log[..|log| - 1];
      LawfulNext(log);
      hide Observe;
      if Summary(front).over { OverMeansAll(front); }
      ObserveOver(Summary(front), log[|log| - 1]);
    }
  }

  /** How often the current request was sent to a node. */
  function Sends(log: seq<Entry>, node: nat): nat {
    if log == [] || log[|log| - 1].Routed? then 0
    else
      var e := log[|log| - 1];
      Sends(log[..|log| - 1], node) + (if e == Sent(node) || e == Resent(node) then 1 else 0)
  }

  lemma {:induction false} AtMostTwoSends(log: seq<Entry>, node: nat)
    requires Summary(log).lawful
    ensures var d := Summary(log);
            Sends(log, node) == (if node in d.sent then 1 else 0) + (if node in d.resent then 1 else 0)
  {
    if log != [] {
      var front := log[..|log| - 1];
      assert Summary(log) == Observe(Summary(front), log[|log| - 1]);
      ObserveLawful(Summary(front), log[|log| - 1]);
      hide Observe, Summary;
      AtMostTwoSends(front, node);
    }
  }

  /** Outcome `j` is the earliest answer that is not an error. */
  predicate IsFirst(outs: seq<Entry>, j: nat) {
    j < |outs| && outs[j].Finished? && outs[j].outcome == Answered(false) &&
    forall i :: 0 <= i < j ==> outs[i].Finished? && outs[i].outcome != Answered(false)
  }

  /** `FirstSuccess` is what its name says. */
  lemma {:induction false} FirstSuccessIsFirst(outs: seq<Entry>)
    requires forall j :: 0 <= j < |outs| ==> outs[j].Finished?
    ensures FirstSuccess(outs) == -1 <==> forall j :: 0 <= j < |outs| ==> outs[j].outcome != Answered(false)
    ensures FirstSuccess(outs) != -1 ==> exists j: nat :: IsFirst(outs, j) && outs[j].node == FirstSuccess(outs)
  {
    if outs != [] {
      var n := |outs| - 1;
      FirstSuccessIsFirst(outs[..n]);
      if FirstSuccess(outs[..n]) != -1 {
        var j: nat :| IsFirst(outs[..n], j) && outs[..n][j].node == FirstSuccess(outs[..n]);
        assert IsFirst(outs, j);
      } else if FirstSuccess(outs) != -1 {
        assert IsFirst(outs, n);
      }
    }
  }
}
