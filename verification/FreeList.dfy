/** The pool allocator's free list: the cells whose headers are linked by `next`. */
module FreeList {
  const NIL: int := -1

  function At(free: seq<nat>, k: int): int { if 0 <= k < |free| then free[k] else NIL }

  ghost predicate Rising(free: seq<nat>) { forall j, k :: 0 <= j < k < |free| ==> free[j] < free[k] }

  ghost predicate Chain(free: seq<nat>, next: seq<int>, head: int) {
    && head == At(free, 0) && Rising(free)
    && (forall j :: 0 <= j < |free| ==> free[j] < |next|)
    && (forall j {:trigger next[free[j]]} :: 0 <= j < |free| ==> next[free[j]] == At(free, j + 1))
  }

  function Inserted(free: seq<nat>, k: nat, n: nat): seq<nat>
    requires k <= |free|
  {
    free[..k] + [n] + free[k..]
  }

  function Removed(free: seq<nat>, k: nat): seq<nat>
    requires k < |free|
  {
    free[..k] + free[k + 1..]
  }

  /** Where `cur` belongs in the list: the first loop of `pool_free`. */
  method Locate(nexts: array<int>, head: int, ghost free: seq<nat>, cur: nat) returns (ghost k: nat, prev: int, next: int)
    requires Chain(free, nexts[..], head)
    ensures prev < cur && (next == NIL || next >= cur)
    ensures k <= |free| && prev == At(free, k - 1) && next == At(free, k)
    ensures (forall j :: 0 <= j < k ==> free[j] < cur) && (forall j :: k <= j < |free| ==> free[j] >= cur)
  {
    k, prev, next := 0, NIL, head;
    while next != NIL && next < cur
      invariant k <= |free| && prev == At(free, k - 1) && next == At(free, k)
      invariant forall j :: 0 <= j < k ==> free[j] < cur
      decreases |free| - k
    {
      assert nexts[..][free[k]] == At(free, k + 1);
      prev := next;
      next := nexts[next];
      k := k + 1;
    }
  }

  lemma InsertedRising(free: seq<nat>, k: nat, n: nat)
    requires Rising(free) && k <= |free|
    requires (forall j :: 0 <= j < k ==> free[j] < n) && (forall j :: k <= j < |free| ==> free[j] > n)
    ensures Rising(Inserted(free, k, n))
  {
  }

  /** The list after `n` was hooked in before entry `k`. */
  lemma InsertChain(free: seq<nat>, next: seq<int>, next': seq<int>, head: int, k: nat, n: nat)
    requires Chain(free, next, head) && k <= |free| && |next'| == |next| && n < |next|
    requires (forall j :: 0 <= j < k ==> free[j] < n) && (forall j :: k <= j < |free| ==> free[j] > n)
    requires next'[n] == At(free, k) && (k > 0 ==> next'[free[k - 1]] == n)
    requires forall c :: 0 <= c < |next| && c != n && c != At(free, k - 1) ==> next'[c] == next[c]
    ensures Chain(Inserted(free, k, n), next', if k > 0 then head else n)
  {
    var f := Inserted(free, k, n);
    InsertedRising(free, k, n);
    hide Rising;
    forall j | 0 <= j < |f|
      ensures f[j] < |next'| && next'[f[j]] == At(f, j + 1)
    {
      if j + 1 < k {
        assert f[j] == free[j] && free[j] != free[k - 1] by { Below(free, j, k - 1); }
        assert next[free[j]] == At(free, j + 1);
      } else if j > k {
        assert f[j] == free[j - 1] && free[j - 1] != At(free, k - 1) by { if k > 0 { Below(free, k - 1, j - 1); } }
        assert next[free[j - 1]] == At(free, j);
      }
    }
  }

  lemma Below(free: seq<nat>, j: nat, k: nat)
    requires Rising(free) && j < k < |free|
    ensures free[j] < free[k]
  {
  }

  method Insert(nexts: array<int>, head: int, ghost free: seq<nat>, ghost k: nat, prev: int, cur: nat, next: int)
    returns (head': int)
    requires Chain(free, nexts[..], head) && k <= |free| && prev == At(free, k - 1) && next == At(free, k)
    requires cur < nexts.Length
    requires (forall j :: 0 <= j < k ==> free[j] < cur) && (forall j :: k <= j < |free| ==> free[j] > cur)
    modifies nexts
    ensures Chain(Inserted(free, k, cur), nexts[..], head')
  {
    head' := head;
    if prev != NIL { nexts[prev] := cur; } else { head' := cur; }
    nexts[cur] := next;
    InsertChain(free, old(nexts[..]), nexts[..], head, k, cur);
  }

  lemma RemovedRising(free: seq<nat>, k: nat)
    requires Rising(free) && k < |free|
    ensures Rising(Removed(free, k))
  {
  }

  /** The list after entry `k` was unhooked. */
  lemma RemoveChain(free: seq<nat>, next: seq<int>, next': seq<int>, head: int, k: nat)
    requires Chain(free, next, head) && k < |free| && |next'| == |next|
    requires k > 0 ==> next'[free[k - 1]] == At(free, k + 1)
    requires forall c :: 0 <= c < |next| && c != At(free, k - 1) ==> next'[c] == next[c]
    ensures Chain(Removed(free, k), next', if k > 0 then head else At(free, 1))
  {
    var f := Removed(free, k);
    RemovedRising(free, k);
    hide Rising;
    forall j | 0 <= j < |f|
      ensures f[j] < |next'| && next'[f[j]] == At(f, j + 1)
    {
      if j + 1 < k {
        assert f[j] == free[j] && free[j] != free[k - 1] by { Below(free, j, k - 1); }
        assert next[free[j]] == At(free, j + 1);
      } else if j >= k {
        assert f[j] == free[j + 1] && free[j + 1] != At(free, k - 1) by { if k > 0 { Below(free, k - 1, j + 1); } }
        assert next[free[j + 1]] == At(free, j + 2);
      }
    }
  }

  /** Entry `k` leaves the list: its predecessor takes over its link. */
  method Remove(nexts: array<int>, head: int, ghost free: seq<nat>, ghost k: nat, prev: int, cur: nat) returns (head': int)
    requires Chain(free, nexts[..], head) && k < |free| && prev == At(free, k - 1) && cur == free[k]
    modifies nexts
    ensures Chain(Removed(free, k), nexts[..], head')
  {
    head' := head;
    assert nexts[..][free[k]] == At(free, k + 1);
    if prev != NIL { nexts[prev] := nexts[cur]; } else { head' := nexts[cur]; }
    RemoveChain(free, old(nexts[..]), nexts[..], head, k);
  }

  function Replaced(free: seq<nat>, k: nat, n: nat): seq<nat>
    requires k < |free|
  {
    free[..k] + [n] + free[k + 1..]
  }

  lemma ReplacedRising(free: seq<nat>, k: nat, n: nat)
    requires Rising(free) && k < |free| && free[k] <= n && (k + 1 < |free| ==> n < free[k + 1])
    ensures Rising(Replaced(free, k, n))
  {
  }

  /** The list after `n`, just above entry `k`, took its place. */
  lemma ReplaceChain(free: seq<nat>, next: seq<int>, next': seq<int>, head: int, k: nat, n: nat)
    requires Chain(free, next, head) && k < |free| && |next'| == |next| && n < |next|
    requires free[k] <= n && (k + 1 < |free| ==> n < free[k + 1])
    requires next'[n] == At(free, k + 1) && (k > 0 ==> next'[free[k - 1]] == n)
    requires forall c :: 0 <= c < |next| && c != n && c != At(free, k - 1) ==> next'[c] == next[c]
    ensures Chain(Replaced(free, k, n), next', if k > 0 then head else n)
  {
    var f := Replaced(free, k, n);
    ReplacedRising(free, k, n);
    assert forall j :: 0 <= j < |f| ==> (j > k ==> f[j] == free[j]) && (j < k ==> f[j] == free[j]);
    forall j | 0 <= j < |f|
      ensures f[j] < |next'| && next'[f[j]] == At(f, j + 1)
    {
      if j + 1 < k {
        Below(free, j, k - 1);
        Below(free, j, k);
        assert next[free[j]] == At(free, j + 1);
      } else if j > k {
        if k > 0 { Below(free, k - 1, j); }
        assert free[j] > n by { if j > k + 1 { Below(free, k + 1, j); } }
        assert next[free[j]] == At(free, j + 1);
      }
    }
  }

  /** The rest `n` of a split chunk takes the chunk's place in the list. */
  method Replace(nexts: array<int>, head: int, ghost free: seq<nat>, ghost k: nat, prev: int, cur: nat, n: nat)
    returns (head': int)
    requires Chain(free, nexts[..], head) && k < |free| && prev == At(free, k - 1) && cur == free[k]
    requires cur < n < nexts.Length && (k + 1 < |free| ==> n < free[k + 1])
    modifies nexts
    ensures Chain(Replaced(free, k, n), nexts[..], head')
  {
    head' := head;
    assert nexts[..][free[k]] == At(free, k + 1);
    nexts[n] := nexts[cur];
    if prev != NIL { nexts[prev] := n; } else { head' := n; }
    ReplaceChain(free, old(nexts[..]), nexts[..], head, k, n);
  }

  /** The loop of `pool_malloc`: the first entry that is large enough. */
  method FirstFit(sizes: array<int>, nexts: array<int>, head: int, ghost free: seq<nat>, need: nat)
    returns (ghost k: nat, prev: int, cur: int)
    requires Chain(free, nexts[..], head) && sizes.Length == nexts.Length
    ensures k <= |free| && prev == At(free, k - 1) && cur == At(free, k)
    ensures forall j :: 0 <= j < k ==> free[j] < sizes.Length && sizes[free[j]] < need
    ensures cur != NIL ==> 0 <= cur < sizes.Length && sizes[cur] >= need
  {
    k, prev, cur := 0, NIL, head;
    while cur != NIL
      invariant k <= |free| && prev == At(free, k - 1) && cur == At(free, k)
      invariant forall j :: 0 <= j < k ==> free[j] < sizes.Length && sizes[free[j]] < need
      decreases |free| - k
    {
      if sizes[cur] >= need { return; }
      assert nexts[..][free[k]] == At(free, k + 1);
      prev := cur;
      cur := nexts[cur];
      k := k + 1;
    }
  }
}
