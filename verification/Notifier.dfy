/** `notifier_t`, whose per-node tables are arrays updated in place. */
module NotifierObject {
  import opened Options
  import opened NotifierModel

  class Notifier {
    const labels: seq<string>
    const zmq: seq<bool>
    const hasHash: array<bool>
    const lastHashes: array<Hash>
    const changed: array<nat>
    const warned: array<bool>
    var hasLast: bool
    var lastHash: Hash
    var first: nat
    var graceActive: bool
    var graceStart: nat
    var graceWinner: int

    ghost predicate Valid()
      reads this
    {
      && |zmq| == |labels| == hasHash.Length == lastHashes.Length == changed.Length == warned.Length
      && hasHash != warned && lastHashes != changed
    }

    ghost function View(): State
      requires Valid()
      reads this, hasHash, lastHashes, changed, warned
    {
      State(if hasLast then Some(lastHash) else None, first,
            if graceActive then Some(Grace(graceStart, graceWinner)) else None, Hashes(), changed[..], warned[..])
    }

    ghost function Hashes(): seq<Option<Hash>>
      requires Valid()
      reads this, hasHash, lastHashes
    {
      seq(|labels|, i requires 0 <= i < |labels| && Valid() reads this, hasHash, lastHashes =>
            if hasHash[i] then Some(lastHashes[i]) else None)
    }

    /** `notifier_create`, as far as the state goes. */
    constructor (labels: seq<string>, zmq: seq<bool>)
      requires |zmq| == |labels|
      ensures Valid() && View() == Start(|labels|) && this.labels == labels && this.zmq == zmq
    {
      this.labels, this.zmq := labels, zmq;
      hasHash := new bool[|labels|](_ => false);
      lastHashes := new Hash[|labels|](_ => 0);
      changed := new nat[|labels|](_ => 0);
      warned := new bool[|labels|](_ => false);
      hasLast, lastHash, first, graceActive, graceStart, graceWinner := false, 0, 0, false, 0, -1;
    }

    /** The loop over the configured labels: the first node of that name, or none. */
    method Source(name: Option<string>) returns (src: int)
      requires Valid()
      ensures src == SourceOf(labels, name, 0)
    {
      src := -1;
      if name.Some? {
        var i := 0;
        while i < |labels|
          invariant 0 <= i <= |labels| && SourceOf(labels, name, 0) == SourceOf(labels, name, i)
        {
          if labels[i] == name.value { return i; }
          i := i + 1;
        }
      }
    }

    /** A report enters the node's row of the tables. */
    method Record(i: int, hash: Hash, now: nat)
      requires Valid() && -1 <= i < |labels|
      modifies hasHash, lastHashes, changed
      ensures View() == Note(old(View()), i, hash, now)
    {
      if i >= 0 {
        if !hasHash[i] || lastHashes[i] != hash { changed[i] := now; }
        lastHashes[i] := hash;
        hasHash[i] := true;
        assert Hashes() == old(Hashes())[i := Some(hash)];
      }
    }

    method ClearWarnings()
      requires Valid()
      modifies warned
      ensures View() == old(View()).(warned := seq(|labels|, _ => false))
    {
      var i := 0;
      while i < warned.Length
        invariant 0 <= i <= warned.Length && forall k :: 0 <= k < i ==> !warned[k]
      {
        warned[i] := false;
        i := i + 1;
      }
      assert Hashes() == old(Hashes());
    }

    /** `notifier_process_hash` */
    method ProcessHash(hash: Hash, name: Option<string>, now: nat) returns (accepted: bool)
      requires Valid() && now < CLOCK
      modifies this, hasHash, lastHashes, changed, warned
      ensures Valid() && View() == Process(old(View()), hash, SourceOf(labels, name, 0), now)
      ensures accepted == Accepts(old(View()), hash, SourceOf(labels, name, 0), now)
    {
      var src := Source(name);
      SourceRange(labels, name, 0);
      if hasLast && lastHash == hash {
        Record(src, hash, now);
        return false;
      }
      Record(src, hash, now);
      if graceActive {
        var elapsed := (now - graceStart) % CLOCK;
        if elapsed < GRACE && src != graceWinner { return false; }
      }
      ClearWarnings();
      ghost var s := View();
      hasLast, lastHash, first := true, hash, now;
      graceActive, graceStart, graceWinner := true, now, src;
      assert Hashes() == s.hashes;
      return true;
    }

    /** `silence_check_cb`: the nodes that a warning is logged for. */
    method SilenceCheck(ibd: seq<bool>, now: nat) returns (silent: seq<bool>)
      requires Valid() && |ibd| == |labels|
      modifies warned
      ensures View() == Check(old(View()), zmq, ibd, now) && |silent| == |labels|
      ensures forall i :: 0 <= i < |labels| ==> silent[i] == Warns(old(View()), i, zmq, ibd, now)
    {
      silent := seq(|labels|, _ => false);
      if first == 0 { return; }
      if (now - first) % CLOCK < SILENCE { return; }
      ghost var s := View();
      var i := 0;
      while i < |labels|
        invariant 0 <= i <= |labels| == |silent| && Hashes() == s.hashes
        invariant forall k :: i <= k < |labels| ==> warned[k] == s.warned[k] && !silent[k]
        invariant forall k :: 0 <= k < i ==> silent[k] == Warns(s, k, zmq, ibd, now) && warned[k] == (s.warned[k] || silent[k])
      {
        if zmq[i] && !ibd[i] && !warned[i] && !(hasHash[i] && changed[i] >= first) {
          warned[i] := true;
          silent := silent[i := true];
        }
        i := i + 1;
      }
    }
  }

  /** The index of the first node with a name. */
  function SourceOf(labels: seq<string>, name: Option<string>, i: nat): int
    decreases |labels| - i
  {
    if name.None? || i >= |labels| then -1
    else if labels[i] == name.value then i
    else SourceOf(labels, name, i + 1)
  }

  lemma {:induction false} SourceRange(labels: seq<string>, name: Option<string>, i: nat)
    ensures -1 <= SourceOf(labels, name, i) < |labels|
    decreases |labels| - i
  {
    if name.Some? && i < |labels| && labels[i] != name.value { SourceRange(labels, name, i + 1); }
  }
}
