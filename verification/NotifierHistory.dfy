/** What every history of notifies comes to, said without the notifier's tables. */
module NotifierHistory {
  import opened Options
  import opened NotifierModel

  // ---------------------------------------------------------------- which notifies are accepted

  datatype Acceptance = Acceptance(hash: Hash, src: int, now: nat)

  /** A notify is taken if it differs from the last one taken and comes from the same source,
      or ten seconds later. */
  predicate Takes(a: seq<Acceptance>, e: Event)
    requires e.Report?
  {
    a == [] || (a[|a| - 1].hash != e.hash && (Elapsed(e.now, a[|a| - 1].now) >= GRACE || e.src == a[|a| - 1].src))
  }

  function Taken(h: seq<Event>): seq<Acceptance> {
    if h == [] then []
    else
      var a, e := Taken(h[..|h| - 1]), h[|h| - 1];
      if e.Report? && Takes(a, e) then a + [Acceptance(e.hash, e.src, e.now)] else a
  }

  /** The state remembers the last acceptance. */
  ghost predicate Remembers(s: State, a: seq<Acceptance>) {
    if a == [] then s.last == None && s.first == 0 && s.grace == None
    else
      var l := a[|a| - 1];
      s.last == Some(l.hash) && s.first == l.now && s.grace == Some(Grace(l.now, l.src))
  }

  lemma {:induction false} RunRemembers(n: nat, zmq: seq<bool>, h: seq<Event>)
    ensures Remembers(Run(n, zmq, h), Taken(h)) && Sized(Run(n, zmq, h), n)
  {
    if h != [] { RunRemembers(n, zmq, h[..|h| - 1]); }
  }

  lemma {:induction false} TakenOrdered(h: seq<Event>)
    requires Ordered(h)
    ensures forall i :: 0 <= i < |Taken(h)| ==> 0 < Taken(h)[i].now < CLOCK && (h != [] ==> Taken(h)[i].now <= h[|h| - 1].now)
    ensures forall i, j :: 0 <= i < j < |Taken(h)| ==> Taken(h)[i].now <= Taken(h)[j].now
  {
    if h != [] { TakenOrdered(h[..|h| - 1]); }
  }

  /** Consecutive accepted hashes differ, and a change of source takes ten seconds. */
  lemma {:induction false} Neighbours(h: seq<Event>, i: nat)
    requires Ordered(h) && i + 1 < |Taken(h)|
    ensures var a, b := Taken(h)[i], Taken(h)[i + 1];
            a.hash != b.hash && (a.src == b.src || b.now - a.now >= GRACE)
  {
    var g, e := h[..|h| - 1], h[|h| - 1];
    TakenOrdered(g);
    TakenOrdered(h);
    if i + 1 < |Taken(g)| { Neighbours(g, i); }
  }

  /** Any two acceptances less than ten seconds apart come from the same source. */
  lemma {:induction false} SameSource(h: seq<Event>, i: nat, j: nat)
    requires Ordered(h) && i <= j < |Taken(h)| && Taken(h)[j].now - Taken(h)[i].now < GRACE
    ensures Taken(h)[i].src == Taken(h)[j].src
    decreases j - i
  {
    if i < j {
      TakenOrdered(h);
      Neighbours(h, j - 1);
      SameSource(h, i, j - 1);
    }
  }

  /** How often the source changes between two acceptances. */
  function Changes(a: seq<Acceptance>, i: nat, j: nat): nat
    requires i <= j < |a|
    decreases j - i
  {
    if i == j then 0 else Changes(a, i, j - 1) + (if a[j].src != a[j - 1].src then 1 else 0)
  }

  /** In a window of a given length the source changes at most once every ten seconds. */
  lemma {:induction false} RareChanges(h: seq<Event>, i: nat, j: nat)
    requires Ordered(h) && i <= j < |Taken(h)|
    ensures Changes(Taken(h), i, j) * GRACE <= Taken(h)[j].now - Taken(h)[i].now
    decreases j - i
  {
    if i < j {
      TakenOrdered(h);
      Neighbours(h, j - 1);
      RareChanges(h, i, j - 1);
    }
  }

  // ---------------------------------------------------------------- the silence tables

  /** A node's own reports, in order. */
  function Reports(h: seq<Event>, i: nat): seq<Event> {
    if h == [] then []
    else Reports(h[..|h| - 1], i) + (if h[|h| - 1].Report? && h[|h| - 1].src == i then [h[|h| - 1]] else [])
  }

  /** The `k`-th report differs from the one before it. */
  ghost predicate News(r: seq<Event>, k: int) {
    0 <= k < |r| && r[k].Report? && (k == 0 || !r[k - 1].Report? || r[k].hash != r[k - 1].hash)
  }

  /** The node's table entries: its last report, and the time of its latest news. */
  ghost predicate Tracks(hash: Option<Hash>, changed: nat, r: seq<Event>) {
    if r == [] then hash == None && changed == 0
    else
      && r[|r| - 1].Report? && hash == Some(r[|r| - 1].hash)
      && exists k :: News(r, k) && r[k].now == changed && forall j :: News(r, j) ==> j <= k
  }

  lemma TracksNext(hash: Option<Hash>, changed: nat, r: seq<Event>, e: Event)
    requires Tracks(hash, changed, r) && e.Report?
    ensures Tracks(Some(e.hash), if hash != Some(e.hash) then e.now else changed, r + [e])
  {
    var q := r + [e];
    if hash != Some(e.hash) {
      assert News(q, |r|);
    } else {
      var k :| News(r, k) && r[k].now == changed && forall j :: News(r, j) ==> j <= k;
      assert News(q, k);
      forall j | News(q, j) ensures j <= k { if j < |r| { assert News(r, j); } }
    }
  }

  /** The tables are a fold of the whole history: nothing else changes them. */
  lemma {:induction false} TablesTrack(n: nat, zmq: seq<bool>, h: seq<Event>, i: nat)
    requires i < n
    ensures Sized(Run(n, zmq, h), n)
    ensures Tracks(Run(n, zmq, h).hashes[i], Run(n, zmq, h).changed[i], Reports(h, i))
  {
    RunRemembers(n, zmq, h);
    if h != [] {
      var g, e := h[..|h| - 1], h[|h| - 1];
      RunRemembers(n, zmq, g);
      TablesTrack(n, zmq, g, i);
      var s := Run(n, zmq, g);
      hide Tracks, Reports;
      ReportsNext(h, i);
      if e.Report? && e.src == i { TracksNext(s.hashes[i], s.changed[i], Reports(g, i), e); }
    }
  }

  lemma ReportsNext(h: seq<Event>, i: nat)
    requires h != []
    ensures var g, e := h[..|h| - 1], h[|h| - 1];
            Reports(h, i) == if e.Report? && e.src == i then Reports(g, i) + [e] else Reports(g, i)
  {
  }

  /** The events `r` are in order of time, none after `last`. */
  predicate InTime(r: seq<Event>, last: nat) {
    && (forall k :: 0 <= k < |r| ==> r[k].now <= last)
    && (forall j, k :: 0 <= j < k < |r| ==> r[j].now <= r[k].now)
  }

  lemma InTimeNext(r: seq<Event>, last: nat, e: Event)
    requires InTime(r, last) && last <= e.now
    ensures InTime(r, e.now) && InTime(r + [e], e.now)
  {
  }

  lemma {:induction false} ReportsOrdered(h: seq<Event>, i: nat)
    requires Ordered(h)
    ensures InTime(Reports(h, i), if h == [] then 0 else h[|h| - 1].now)
  {
    if h != [] {
      var g, e := h[..|h| - 1], h[|h| - 1];
      assert Ordered(g) && (g != [] ==> g[|g| - 1].now <= e.now);
      ReportsNext(h, i);
      hide InTime, Reports, Ordered;
      ReportsOrdered(g, i);
      InTimeNext(Reports(g, i), if g == [] then 0 else g[|g| - 1].now, e);
    }
  }

  /** Node `i` made a report at or after time `t` that differed from its own previous one. */
  ghost predicate AliveSince(h: seq<Event>, i: nat, t: nat) {
    exists k :: News(Reports(h, i), k) && Reports(h, i)[k].now >= t
  }

  lemma AliveIs(n: nat, zmq: seq<bool>, h: seq<Event>, i: nat, t: nat)
    requires i < n && Ordered(h) && t > 0
    ensures Sized(Run(n, zmq, h), n)
    ensures var s := Run(n, zmq, h); s.hashes[i].Some? && s.changed[i] >= t <==> AliveSince(h, i, t)
  {
    TablesTrack(n, zmq, h, i);
    ReportsOrdered(h, i);
    var s, r := Run(n, zmq, h), Reports(h, i);
    hide Run, Reports;
    if r != [] {
      var k :| News(r, k) && r[k].now == s.changed[i] && forall j :: News(r, j) ==> j <= k;
      if AliveSince(h, i, t) {
        var j :| News(r, j) && r[j].now >= t;
        assert j <= k;
      }
    }
  }

  // ---------------------------------------------------------------- who is warned about

  /** How often node `i` was warned about since the last acceptance. */
  function Warnings(n: nat, zmq: seq<bool>, h: seq<Event>, i: nat): nat {
    if h == [] then 0
    else
      var g, e := h[..|h| - 1], h[|h| - 1];
      var s := Run(n, zmq, g);
      match e
      case Report(hash, src, now) => if Accepts(s, hash, src, now) then 0 else Warnings(n, zmq, g, i)
      case Timer(ibd, now) => Warnings(n, zmq, g, i) + (if Warns(s, i, zmq, ibd, now) then 1 else 0)
  }

  /** At most once, and the table says whether it was. */
  lemma {:induction false} WarnedOnce(n: nat, zmq: seq<bool>, h: seq<Event>, i: nat)
    requires i < n
    ensures Sized(Run(n, zmq, h), n)
    ensures Warnings(n, zmq, h, i) == if Run(n, zmq, h).warned[i] then 1 else 0
  {
    RunRemembers(n, zmq, h);
    if h != [] {
      RunRemembers(n, zmq, h[..|h| - 1]);
      WarnedOnce(n, zmq, h[..|h| - 1], i);
    }
  }

  /** The exact condition of a warning, in terms of the history alone. */
  lemma WarnsExactly(n: nat, zmq: seq<bool>, h: seq<Event>, ibd: seq<bool>, now: nat, i: nat)
    requires i < n == |zmq| == |ibd| && Ordered(h + [Timer(ibd, now)])
    ensures var a := Taken(h);
            Warns(Run(n, zmq, h), i, zmq, ibd, now) <==>
              && a != [] && now - a[|a| - 1].now >= SILENCE && zmq[i] && !ibd[i]
              && Warnings(n, zmq, h, i) == 0 && !AliveSince(h, i, a[|a| - 1].now)
  {
    var full := h + [Timer(ibd, now)];
    assert Ordered(h) by { assert forall k :: 0 <= k < |h| ==> h[k] == full[k]; }
    RunRemembers(n, zmq, h);
    WarnedOnce(n, zmq, h, i);
    TakenOrdered(h);
    var a := Taken(h);
    if a != [] {
      AliveIs(n, zmq, h, i, a[|a| - 1].now);
      assert full[|h|].now == now && (h != [] ==> full[|h| - 1] == h[|h| - 1]);
      ElapsedIs(now, a[|a| - 1].now);
    }
    hide Run, Taken, AliveSince, Warnings, Ordered;
  }

  lemma ElapsedIs(now: nat, since: nat)
    requires since <= now < CLOCK
    ensures Elapsed(now, since) == now - since
  {
  }
}
