/** The hash table of uthash.h, for an arbitrary hash function. */
module UtHash {
  import opened Powers
  import opened Lists

  const INITIAL_LOG2: nat := 5
  const THRESHOLD: nat := 10

  /** `UT_hash_bucket` */
  datatype Bucket = Bucket(head: Item?, count: nat, expandMult: nat)

  // ---------------------------------------------------------------- bucket numbers

  /** The bitwise and of two numbers. */
  function And(x: nat, y: nat): nat {
    if x == 0 || y == 0 then 0
    else 2 * And(x / 2, y / 2) + (x % 2) * (y % 2)
  }

  /** `HASH_TO_BKT` */
  function ToBucket(hashv: nat, buckets: nat): nat
    requires buckets > 0
  {
    And(hashv, buckets - 1)
  }

  /** With a power of two of buckets the mask takes the remainder. */
  lemma {:induction false} MaskIsRemainder(x: nat, k: nat)
    ensures Pow(2, k) > 0 && ToBucket(x, Pow(2, k)) == x % Pow(2, k)
    decreases k
  {
    hide Pow, And;
    PowPositive(2, k);
    if k == 0 {
      PowOne(2);
      AndZero(x);
    } else {
      MaskIsRemainder(x / 2, k - 1);
      PowStep(2, k - 1);
      AndOnes(x, Pow(2, k - 1));
      HalfRemainder(x, Pow(2, k - 1));
    }
  }

  lemma AndZero(x: nat)
    ensures And(x, 0) == 0
  {
  }

  lemma AndOnes(x: nat, h: nat)
    requires h > 0
    ensures And(x, 2 * h - 1) == 2 * And(x / 2, h - 1) + x % 2
  {
    assert (2 * h - 1) / 2 == h - 1 && (2 * h - 1) % 2 == 1;
    if x == 0 { AndZero(0); }
  }

  lemma HalfRemainder(x: nat, h: nat)
    requires h > 0
    ensures x % (2 * h) == 2 * (x / 2 % h) + x % 2
  {
    var q := x / 2 / h;
    assert x == 2 * (q * h + x / 2 % h) + x % 2;
    RemainderIs(x, 2 * h, q, 2 * (x / 2 % h) + x % 2);
  }

  lemma RemainderIs(x: nat, d: nat, q: nat, r: nat)
    requires d > 0 && x == q * d + r && r < d
    ensures x % d == r
  {
    var q', r' := x / d, x % d;
    assert x == q' * d + r' && 0 <= r' < d;
    if q < q' { MulLe(q + 1, q', d, d); } else if q' < q { MulLe(q' + 1, q, d, d); }
  }

  /** Doubling the table sends an item to its old bucket or to that one's new twin. */
  lemma DoubledBucket(x: nat, k: nat)
    ensures Pow(2, k) > 0 && Pow(2, k + 1) == 2 * Pow(2, k)
    ensures ToBucket(x, Pow(2, k + 1)) in {ToBucket(x, Pow(2, k)), ToBucket(x, Pow(2, k)) + Pow(2, k)}
  {
    hide Pow, ToBucket;
    MaskIsRemainder(x, k);
    MaskIsRemainder(x, k + 1);
    PowStep(2, k);
    DoubledRemainder(x, Pow(2, k));
  }

  lemma DoubledRemainder(x: nat, n: nat)
    requires n > 0
    ensures x % (2 * n) == x % n || x % (2 * n) == x % n + n
  {
    var q, r := x / n, x % n;
    DoubledQuotient(x, n, q / 2, q % 2, r);
    RemainderIs(x, 2 * n, q / 2, q % 2 * n + r);
  }

  lemma DoubledQuotient(x: nat, n: nat, h: nat, o: nat, r: nat)
    requires x == (2 * h + o) * n + r
    ensures x == h * (2 * n) + (o * n + r)
  {
  }

  // ---------------------------------------------------------------- filing items in buckets

  ghost predicate Holds(bk: Bucket, c: seq<Item>, b: nat, n: nat, items: set<Item>)
    requires n > 0
    reads items`hhNext, items`hhPrev
  {
    && (forall it :: it in c ==> it in items && ToBucket(it.hashv, n) == b)
    && Chained(c) && bk.head == At(c, 0) && bk.count == |c|
  }

  /** The buckets hold exactly `items`, each in the bucket of its hash value. */
  ghost predicate Filed(bs: seq<Bucket>, chains: seq<seq<Item>>, items: set<Item>)
    reads items`hhNext, items`hhPrev
  {
    && |bs| == |chains| > 0
    && (forall b :: 0 <= b < |bs| ==> Holds(bs[b], chains[b], b, |bs|, items))
    && (forall it :: it in items ==> ToBucket(it.hashv, |bs|) < |bs| && it in chains[ToBucket(it.hashv, |bs|)])
  }

  lemma EmptyFiled(bs: seq<Bucket>, chains: seq<seq<Item>>)
    requires |bs| == |chains| > 0
    requires forall b :: 0 <= b < |bs| ==> bs[b].head == null && bs[b].count == 0 && chains[b] == []
    ensures Filed(bs, chains, {})
  {
  }

  lemma ChainsApart(bs: seq<Bucket>, chains: seq<seq<Item>>, items: set<Item>, b: nat)
    requires Filed(bs, chains, items) && b < |bs|
    ensures forall j, i, k :: 0 <= j < |bs| && j != b && 0 <= i < |chains[j]| && 0 <= k < |chains[b]| ==>
              chains[j][i] != chains[b][k]
  {
    hide ToBucket, Chained;
    forall j, i, k | 0 <= j < |bs| && j != b && 0 <= i < |chains[j]| && 0 <= k < |chains[b]|
      ensures chains[j][i] != chains[b][k]
    {
      assert Holds(bs[j], chains[j], j, |bs|, items) && chains[j][i] in chains[j];
      assert Holds(bs[b], chains[b], b, |bs|, items) && chains[b][k] in chains[b];
    }
  }

  /** The bucket part of `HASH_ADD_TO_BKT`, which the expansion loop repeats. */
  method FileItem(bs: array<Bucket>, ghost chains: seq<seq<Item>>, ghost items: set<Item>, it: Item, b: nat,
                  mult: nat)
    requires Filed(bs[..], chains, items) && it !in items
    requires b == ToBucket(it.hashv, bs.Length) < bs.Length
    modifies bs, it`hhNext, it`hhPrev, items`hhPrev
    ensures Filed(bs[..], chains[b := [it] + chains[b]], items + {it})
    ensures bs[b].count == old(bs[b].count) + 1 && bs[b].expandMult == mult
  {
    hide ToBucket;
    ghost var c, n := chains[b], bs.Length;
    assert Holds(bs[..][b], c, b, n, items);
    ChainsApart(bs[..], chains, items, b);
    PushFront(c, bs[b].head, it);
    bs[b] := Bucket(it, bs[b].count + 1, mult);
    hide Chained;
    forall j | 0 <= j < n && j != b
      ensures Holds(bs[j], chains[j], j, n, items + {it})
    {
      assert old(Holds(bs[..][j], chains[j], j, n, items));
    }
  }

  lemma ChainIndex(bs: seq<Bucket>, chains: seq<seq<Item>>, items: set<Item>, it: Item) returns (b: nat, k: nat)
    requires Filed(bs, chains, items) && it in items
    ensures b == ToBucket(it.hashv, |bs|) < |bs| && k < |chains[b]| && chains[b][k] == it
  {
    b := ToBucket(it.hashv, |bs|);
    k :| 0 <= k < |chains[b]| && chains[b][k] == it;
  }

  /** `HASH_DEL_IN_BKT` */
  method UnfileItem(bs: array<Bucket>, ghost chains: seq<seq<Item>>, ghost items: set<Item>, it: Item, b: nat,
                    ghost k: nat)
    requires Filed(bs[..], chains, items)
    requires b < bs.Length && k < |chains[b]| && chains[b][k] == it
    modifies bs, items`hhNext, items`hhPrev
    ensures Filed(bs[..], chains[b := Without(chains[b], k)], items - {it})
  {
    hide ToBucket;
    ghost var c, n := chains[b], bs.Length;
    assert Holds(bs[..][b], c, b, n, items);
    ChainsApart(bs[..], chains, items, b);
    WithoutMembers(c, k);
    var head := Unlink(c, k, bs[b].head, it);
    bs[b] := bs[b].(head := head, count := bs[b].count - 1);
    hide Chained;
    forall j | 0 <= j < n && j != b
      ensures Holds(bs[j], chains[j], j, n, items - {it})
    {
      assert old(Holds(bs[..][j], chains[j], j, n, items));
    }
  }

  /** `HASH_FIND_IN_BKT` */
  method FindInBucket(ghost c: seq<Item>, head: Item?, key: Key, hashv: nat) returns (out: Item?)
    requires Chained(c) && head == At(c, 0)
    ensures out != null ==> out in c && out.hashv == hashv && out.key == key
    ensures out == null ==> forall it :: it in c ==> !(it.hashv == hashv && it.key == key)
  {
    out := head;
    ghost var k := 0;
    while out != null
      invariant 0 <= k <= |c| && out == At(c, k)
      invariant forall i :: 0 <= i < k ==> !(c[i].hashv == hashv && c[i].key == key)
      decreases |c| - k
    {
      if out.hashv == hashv && |out.key| == |key| {
        if out.key == key { return; }
      }
      out := out.hhNext;
      k := k + 1;
    }
  }

  // ---------------------------------------------------------------- counting

  function Total(bs: seq<Bucket>): nat {
    if bs == [] then 0 else Total(bs[..|bs| - 1]) + bs[|bs| - 1].count
  }

  function Upto(items: set<Item>, n: nat, b: nat): set<Item>
    requires n > 0
  {
    set it | it in items && ToBucket(it.hashv, n) < b
  }

  lemma {:induction false} MemberCount(s: seq<Item>)
    requires Distinct(s)
    ensures |Members(s)| == |s|
  {
    if s != [] {
      var rest := s[..|s| - 1];
      MemberCount(rest);
      assert Members(s) == Members(rest) + {s[|s| - 1]};
    } else {
      assert Members(s) == {};
    }
  }

  lemma {:induction false} TotalUpto(bs: seq<Bucket>, chains: seq<seq<Item>>, items: set<Item>, b: nat)
    requires Filed(bs, chains, items) && b <= |bs|
    ensures Total(bs[..b]) == |Upto(items, |bs|, b)|
  {
    if b == 0 {
      assert Upto(items, |bs|, 0) == {};
    } else {
      TotalUpto(bs, chains, items, b - 1);
      assert bs[..b][..b - 1] == bs[..b - 1];
      NextBucket(bs, chains, items, b - 1);
    }
  }

  lemma NextBucket(bs: seq<Bucket>, chains: seq<seq<Item>>, items: set<Item>, b: nat)
    requires Filed(bs, chains, items) && b < |bs|
    ensures |Upto(items, |bs|, b + 1)| == |Upto(items, |bs|, b)| + bs[b].count
  {
    var c := chains[b];
    assert Holds(bs[b], c, b, |bs|, items);
    MemberCount(c);
    hide ToBucket, Chained, Distinct;
    assert Upto(items, |bs|, b + 1) == Upto(items, |bs|, b) + Members(c);
    assert Upto(items, |bs|, b) * Members(c) == {};
  }

  /** The bucket counts add up to the number of items. */
  lemma CountsAddUp(bs: seq<Bucket>, chains: seq<seq<Item>>, s: seq<Item>)
    requires Filed(bs, chains, Members(s)) && Distinct(s)
    ensures Total(bs) == |s|
  {
    TotalUpto(bs, chains, Members(s), |bs|);
    hide ToBucket;
    assert bs[..|bs|] == bs && Upto(Members(s), |bs|, |bs|) == Members(s);
    MemberCount(s);
  }

  /** The walk of `HASH_FSCK` along one chain. */
  method WalkChain(ghost c: seq<Item>, head: Item?) returns (ok: bool, count: nat)
    requires Chained(c) && head == At(c, 0)
    ensures ok && count == |c|
  {
    ok, count := true, 0;
    var it, prev: Item? := head, null;
    while it != null
      invariant count <= |c| && it == At(c, count) && prev == At(c, count - 1) && ok
      decreases |c| - count
    {
      if prev != it.hhPrev { ok := false; }
      count := count + 1;
      prev := it;
      it := it.hhNext;
    }
  }

  /** The walk of `HASH_FSCK` along the application-order list. */
  method WalkList(ghost s: seq<Item>, head: Item?) returns (ok: bool, count: nat)
    requires Listed(s) && head == At(s, 0)
    ensures ok && count == |s|
  {
    ok, count := true, 0;
    var it, prev: Item? := head, null;
    while it != null
      invariant count <= |s| && it == At(s, count) && prev == At(s, count - 1) && ok
      decreases |s| - count
    {
      if prev != it.prev { ok := false; }
      count := count + 1;
      prev := it;
      it := it.next;
    }
  }

  /** The walk of `HASH_FSCK` over all buckets. */
  method WalkBuckets(bs: array<Bucket>, ghost chains: seq<seq<Item>>, ghost items: set<Item>) returns (ok: bool, count: nat)
    requires Filed(bs[..], chains, items)
    ensures ok && count == Total(bs[..])
  {
    ok, count := true, 0;
    var i := 0;
    while i < bs.Length
      invariant 0 <= i <= bs.Length && ok && count == Total(bs[..i])
    {
      assert Holds(bs[..][i], chains[i], i, bs.Length, items);
      var good, n := WalkChain(chains[i], bs[i].head);
      if !good || bs[i].count != n { ok := false; }
      assert bs[..i + 1][..i] == bs[..i];
      count := count + n;
      i := i + 1;
    }
    assert bs[..i] == bs[..];
  }

  // ---------------------------------------------------------------- bucket expansion

  /** The chain of an old bucket from `k` on still waits to be moved. */
  ghost predicate Waiting(c: seq<Item>, k: nat, moved: set<Item>)
    reads c`hhNext
  {
    && Distinct(c) && k <= |c|
    && (forall i :: k <= i < |c| ==> c[i] !in moved)
    && (forall i {:trigger c[i].hhNext} :: k <= i < |c| ==> c[i].hhNext == At(c, i + 1))
  }

  /** How many items sit in a bucket beyond its first `ideal` ones. */
  function Excess(chains: seq<seq<Item>>, ideal: nat): nat {
    if chains == [] then 0
    else Excess(chains[..|chains| - 1], ideal) + Beyond(|chains[|chains| - 1]|, ideal)
  }

  function Beyond(count: nat, ideal: nat): nat { if count > ideal then count - ideal else 0 }

  lemma {:induction false} ExcessPush(chains: seq<seq<Item>>, ideal: nat, b: nat, c: seq<Item>)
    requires b < |chains| && |c| == |chains[b]| + 1
    ensures Excess(chains[b := c], ideal) == Excess(chains, ideal) + (if |c| > ideal then 1 else 0)
  {
    var n := |chains| - 1;
    if b < n {
      ExcessPush(chains[..n], ideal, b, c);
      assert chains[b := c][..n] == chains[..n][b := c];
    } else {
      assert chains[b := c][..n] == chains[..n];
    }
  }

  /** One round of the inner loop of `HASH_EXPAND_BUCKETS`. */
  method MoveOne(bs: array<Bucket>, ghost chains: seq<seq<Item>>, ghost moved: set<Item>, it: Item, ideal: nat, over: nat)
    returns (ghost chains': seq<seq<Item>>, over': nat)
    requires Filed(bs[..], chains, moved) && it !in moved && over == Excess(chains, ideal)
    requires ToBucket(it.hashv, bs.Length) < bs.Length
    modifies bs, it`hhNext, it`hhPrev, moved`hhPrev
    ensures Filed(bs[..], chains', moved + {it}) && over' == Excess(chains', ideal)
  {
    var b := ToBucket(it.hashv, bs.Length);
    assert Holds(bs[..][b], chains[b], b, bs.Length, moved);
    hide Filed, ToBucket, Holds, Excess;
    var count, mult := bs[b].count + 1, bs[b].expandMult;
    over' := over;
    if count > ideal {
      over' := over' + 1;
      if count > mult * ideal { mult := mult + 1; }
    }
    chains' := chains[b := [it] + chains[b]];
    ExcessPush(chains, ideal, b, [it] + chains[b]);
    FileItem(bs, chains, moved, it, b, mult);
  }

  /** The inner loop of `HASH_EXPAND_BUCKETS`: one old bucket is emptied into the new ones. */
  method MoveChain(bs: array<Bucket>, ghost chains: seq<seq<Item>>, ghost moved: set<Item>, ghost c: seq<Item>, head: Item?,
                   ideal: nat, over: nat) returns (ghost chains': seq<seq<Item>>, over': nat)
    requires Filed(bs[..], chains, moved) && over == Excess(chains, ideal)
    requires Waiting(c, 0, moved) && head == At(c, 0)
    requires forall it :: it in c ==> ToBucket(it.hashv, bs.Length) < bs.Length
    modifies bs, c`hhNext, c`hhPrev, moved`hhPrev
    ensures Filed(bs[..], chains', moved + Members(c)) && over' == Excess(chains', ideal)
  {
    hide Filed, ToBucket, Excess;
    chains', over' := chains, over;
    var it := head;
    ghost var k, done := 0, moved;
    while it != null
      invariant 0 <= k <= |c| && it == At(c, k) && done == moved + Members(c[..k])
      invariant Filed(bs[..], chains', done) && Waiting(c, k, done) && over' == Excess(chains', ideal)
      decreases |c| - k
    {
      var next := it.hhNext;
      chains', over' := MoveOne(bs, chains', done, it, ideal, over');
      done, k := done + {it}, k + 1;
      it := next;
    }
    assert c[..k] == c;
  }

  /** What the outer loop of `HASH_EXPAND_BUCKETS` still needs of the old buckets: the
      chains from `i` on are linked, and what was moved came from the buckets before. */
  ghost predicate Remaining(heads: seq<Item?>, chains: seq<seq<Item>>, items: set<Item>, i: nat, moved: set<Item>)
    reads items`hhNext
  {
    && |heads| == |chains| > 0 && moved <= items
    && (forall it :: it in items ==> ToBucket(it.hashv, |chains|) < |chains| && it in chains[ToBucket(it.hashv, |chains|)])
    && (forall it :: it in items ==> (it in moved <==> ToBucket(it.hashv, |chains|) < i))
    && (forall j :: 0 <= j < |chains| ==> Old(heads[j], chains[j], j, |chains|, items, j >= i))
  }

  ghost predicate Old(head: Item?, c: seq<Item>, b: nat, n: nat, items: set<Item>, linked: bool)
    requires n > 0
    reads items`hhNext
  {
    && head == At(c, 0) && Distinct(c)
    && (forall k :: 0 <= k < |c| ==> c[k] in items && ToBucket(c[k].hashv, n) == b)
    && (linked ==> forall k {:trigger c[k].hhNext} :: 0 <= k < |c| ==> c[k].hhNext == At(c, k + 1))
  }

  lemma AllRemain(bs: seq<Bucket>, heads: seq<Item?>, chains: seq<seq<Item>>, items: set<Item>)
    requires Filed(bs, chains, items) && |heads| == |bs|
    requires forall j :: 0 <= j < |bs| ==> heads[j] == bs[j].head
    ensures Remaining(heads, chains, items, 0, {})
  {
    hide ToBucket;
    forall j | 0 <= j < |chains|
      ensures Old(heads[j], chains[j], j, |chains|, items, true)
    {
      assert Holds(bs[j], chains[j], j, |bs|, items);
    }
  }

  /** One round of the outer loop. */
  method MoveBucket(ghost heads: seq<Item?>, ghost old0: seq<seq<Item>>, ghost items: set<Item>, i: nat, head: Item?,
                    bs: array<Bucket>, ghost chains: seq<seq<Item>>, ghost moved: set<Item>, ideal: nat, over: nat)
    returns (ghost chains': seq<seq<Item>>, over': nat)
    requires i < |heads| && Remaining(heads, old0, items, i, moved) && head == heads[i]
    requires Filed(bs[..], chains, moved) && over == Excess(chains, ideal)
    requires forall it :: it in items ==> ToBucket(it.hashv, bs.Length) < bs.Length
    modifies bs, items`hhNext, items`hhPrev
    ensures Remaining(heads, old0, items, i + 1, moved + Members(old0[i]))
    ensures Filed(bs[..], chains', moved + Members(old0[i])) && over' == Excess(chains', ideal)
  {
    hide Filed, ToBucket, Excess;
    ghost var c, n := old0[i], |old0|;
    assert Old(heads[i], c, i, n, items, true);
    forall j, k, m | 0 <= j < n && j != i && 0 <= k < |old0[j]| && 0 <= m < |c|
      ensures old0[j][k] != c[m]
    {
      assert Old(heads[j], old0[j], j, n, items, j >= i);
    }
    chains', over' := MoveChain(bs, chains, moved, c, head, ideal, over);
    forall j | 0 <= j < n
      ensures Old(heads[j], old0[j], j, n, items, j >= i + 1)
    {
      assert old(Old(heads[j], old0[j], j, n, items, j >= i));
    }
  }

  /** The loops of `HASH_EXPAND_BUCKETS`: everything moves from the old buckets to the new. */
  method MoveAll(from: array<Bucket>, ghost old0: seq<seq<Item>>, ghost items: set<Item>,
                 bs: array<Bucket>, ghost empty: seq<seq<Item>>, ideal: nat)
    returns (ghost chains: seq<seq<Item>>, over: nat)
    requires Filed(from[..], old0, items) && from != bs
    requires Filed(bs[..], empty, {}) && Excess(empty, ideal) == 0
    requires forall it :: it in items ==> ToBucket(it.hashv, bs.Length) < bs.Length
    modifies bs, items`hhNext, items`hhPrev
    ensures Filed(bs[..], chains, items) && over == Excess(chains, ideal)
  {
    ghost var heads := seq(from.Length, j requires 0 <= j < from.Length reads from => from[j].head);
    AllRemain(from[..], heads, old0, items);
    ghost var moved: set<Item> := {};
    var i := 0;
    chains, over := empty, 0;
    hide Filed, ToBucket, Excess;
    while i < from.Length
      invariant 0 <= i <= from.Length
      invariant Remaining(heads, old0, items, i, moved)
      invariant Filed(bs[..], chains, moved) && over == Excess(chains, ideal)
    {
      chains, over := MoveBucket(heads, old0, items, i, from[i].head, bs, chains, moved, ideal, over);
      moved := moved + Members(old0[i]);
      i := i + 1;
    }
    assert moved == items;
  }

  method NewBuckets(n: nat) returns (bs: array<Bucket>)
    requires n > 0
    ensures fresh(bs) && bs.Length == n && Filed(bs[..], NoChains(n), {})
  {
    bs := new Bucket[n](_ => Bucket(null, 0, 0));
    EmptyFiled(bs[..], NoChains(n));
  }

  function NoChains(n: nat): seq<seq<Item>> { seq(n, _ => []) }

  lemma FiledLength(bs: seq<Bucket>, chains: seq<seq<Item>>, items: set<Item>)
    requires Filed(bs, chains, items)
    ensures |bs| == |chains| > 0
  {
  }

  lemma {:induction false} EmptyExcess(chains: seq<seq<Item>>, ideal: nat)
    requires forall b :: 0 <= b < |chains| ==> chains[b] == []
    ensures Excess(chains, ideal) == 0
  {
    if chains != [] { EmptyExcess(chains[..|chains| - 1], ideal); }
  }

  /** `HASH_EXPAND_BUCKETS` up to the point where the new buckets replace the old. */
  method Rehash(from: array<Bucket>, ghost old0: seq<seq<Item>>, ghost items: set<Item>, n: nat, ideal: nat)
    returns (bs: array<Bucket>, ghost chains: seq<seq<Item>>, over: nat)
    requires n > 0 && Filed(from[..], old0, items)
    requires forall it :: it in items ==> ToBucket(it.hashv, n) < n
    modifies items`hhNext, items`hhPrev
    ensures fresh(bs) && bs.Length == n && Filed(bs[..], chains, items) && over == Excess(chains, ideal)
  {
    hide Filed, ToBucket, Excess;
    ghost var empty, before := NoChains(n), from[..];
    EmptyExcess(empty, ideal);
    bs := NewBuckets(n);
    assert from[..] == before;
    chains, over := MoveAll(from, old0, items, bs, empty, ideal);
  }
}
