/** The block notifier of `notifier.c`: which block hashes are accepted, and which nodes are
    warned about because they fell silent. Times are nanoseconds of the monotonic clock. */
module NotifierModel {
  import opened Options

  type Hash = nat

  const GRACE: nat := 10_000_000_000
  const SILENCE: nat := 60_000_000_000
  const CLOCK: nat := 0x1_0000_0000_0000_0000

  /** The source index of the last accepted notify and its time. */
  datatype Grace = Grace(start: nat, winner: int)

  datatype State = State(last: Option<Hash>, first: nat, grace: Option<Grace>,
                         hashes: seq<Option<Hash>>, changed: seq<nat>, warned: seq<bool>)

  ghost predicate Sized(s: State, n: nat) { |s.hashes| == |s.changed| == |s.warned| == n }

  function Start(n: nat): State {
    State(None, 0, None, seq(n, _ => None), seq(n, _ => 0), seq(n, _ => false))
  }

  /** Unsigned subtraction. */
  function Elapsed(now: nat, since: nat): nat { (now - since) % CLOCK }

  /** A node's report is recorded, also when the notify is not accepted. */
  function Note(s: State, i: int, hash: Hash, now: nat): State {
    if 0 <= i < |s.hashes| == |s.changed| then
      s.(hashes := s.hashes[i := Some(hash)],
         changed := if s.hashes[i] != Some(hash) then s.changed[i := now] else s.changed)
    else s
  }

  predicate Suppressed(grace: Option<Grace>, src: int, now: nat) {
    grace.Some? && Elapsed(now, grace.value.start) < GRACE && src != grace.value.winner
  }

  predicate Accepts(s: State, hash: Hash, src: int, now: nat) {
    s.last != Some(hash) && !Suppressed(s.grace, src, now)
  }

  /** `notifier_process_hash` */
  function Process(s: State, hash: Hash, src: int, now: nat): State {
    var t := Note(s, src, hash, now);
    if Accepts(s, hash, src, now) then
      t.(last := Some(hash), first := now, grace := Some(Grace(now, src)), warned := seq(|s.warned|, _ => false))
    else t
  }

  /** `silence_check_cb`: whether node `i` is warned about. */
  predicate Warns(s: State, i: nat, zmq: seq<bool>, ibd: seq<bool>, now: nat) {
    && i < |zmq| && i < |ibd| && i < |s.warned| && i < |s.hashes| && i < |s.changed|
    && s.first != 0 && Elapsed(now, s.first) >= SILENCE
    && zmq[i] && !ibd[i] && !s.warned[i] && !(s.hashes[i].Some? && s.changed[i] >= s.first)
  }

  function Check(s: State, zmq: seq<bool>, ibd: seq<bool>, now: nat): State {
    s.(warned := seq(|s.warned|, i requires 0 <= i < |s.warned| => s.warned[i] || Warns(s, i, zmq, ibd, now)))
  }

  // ---------------------------------------------------------------- histories

  datatype Event = Report(hash: Hash, src: int, now: nat) | Timer(ibd: seq<bool>, now: nat)

  function Step(s: State, zmq: seq<bool>, e: Event): State {
    match e
    case Report(hash, src, now) => Process(s, hash, src, now)
    case Timer(ibd, now) => Check(s, zmq, ibd, now)
  }

  function Run(n: nat, zmq: seq<bool>, h: seq<Event>): State {
    if h == [] then Start(n) else Step(Run(n, zmq, h[..|h| - 1]), zmq, h[|h| - 1])
  }

  /** The clock runs forward and is not at zero. */
  ghost predicate Ordered(h: seq<Event>) {
    && (forall i :: 0 <= i < |h| ==> 0 < h[i].now < CLOCK)
    && (forall i, j :: 0 <= i < j < |h| ==> h[i].now <= h[j].now)
  }
}
