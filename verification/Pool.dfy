/** The pool allocator of yyjson.c, which keeps its chunk headers in the buffer itself. */
module PoolAllocator {
  import opened PoolTiles
  import opened FreeList

  const CELL: nat := 16
  const ADDRESSES: nat := 0x1_0000_0000_0000_0000

  /** `pool_size_align`: the cells for a request, with one more for the header. */
  function Cells(bytes: nat): nat { (bytes + CELL - 1) / CELL + 1 }

  /** `mem_align_up`, which may wrap around the address space. */
  function AlignUp(address: nat): nat { (address + CELL - 1) % ADDRESSES / CELL * CELL }

  /** The headers in the buffer say how long the tiles are. */
  ghost predicate Stored(ts: seq<Tile>, sizes: seq<int>) {
    forall i :: 0 <= i < |ts| ==> ts[i].at < |sizes| && sizes[ts[i].at] == ts[i].len
  }

  /** The tile at index `i` is the lowest free one of `need` cells. */
  ghost predicate LowestFit(ts: seq<Tile>, i: nat, need: nat) {
    i < |ts| && ts[i].free && ts[i].len >= need && forall j :: 0 <= j < i && ts[j].free ==> ts[j].len < need
  }

  ghost predicate NoFit(ts: seq<Tile>, need: nat) { forall i :: FreeAt(ts, i) ==> ts[i].len < need }

  /** The headers after a chunk of `len` cells at `at` was taken for `need` cells. */
  ghost predicate Resized(sizes: seq<int>, sizes': seq<int>, at: nat, len: nat, need: nat) {
    if len >= need + 2
    then 0 < need && at + len <= |sizes| && sizes' == sizes[at + need := len - need][at := need]
    else sizes' == sizes
  }

  /** The free list after that. */
  function Carved(free: seq<nat>, k: nat, at: nat, len: nat, need: nat): seq<nat>
    requires k < |free|
  {
    if len >= need + 2 then Replaced(free, k, at + need) else Removed(free, k)
  }

  lemma TakeStored(ts: seq<Tile>, i: nat, need: nat, lo: nat, hi: nat, sizes: seq<int>, sizes': seq<int>)
    requires i < |ts| && 0 < need <= ts[i].len && Span(ts, lo, hi) && Stored(ts, sizes) && |sizes'| == |sizes| == hi
    requires Resized(sizes, sizes', ts[i].at, ts[i].len, need)
    ensures Stored(Take(ts, i, need), sizes')
  {
    var r, m := Take(ts, i, need), Taken(ts[i], need);
    var d := |m| - 1;
    SpanRange(ts, lo, hi);
    forall j | 0 <= j < |r|
      ensures r[j].at < |sizes'| && sizes'[r[j].at] == r[j].len
    {
      if j < i {
        assert r[j] == ts[j];
        Apart(ts, lo, hi, j, i);
      } else if j > i + d {
        assert r[j] == ts[j - d];
        Apart(ts, lo, hi, i, j - d);
      } else {
        assert r[j] == m[j - i];
      }
    }
  }

  /** What a program asks of the pool: a block of some bytes, or to take back the block whose
      chunk is at `at`. */
  datatype Op = Get(bytes: nat) | Put(at: nat)

  function Req(op: Op): Request {
    match op
    case Get(bytes) => Acquire(Cells(bytes))
    case Put(at) => Release(at)
  }

  function Reqs(ops: seq<Op>): seq<Request> { seq(|ops|, j requires 0 <= j < |ops| => Req(ops[j])) }

  lemma ReqsNext(ops: seq<Op>, n: nat)
    requires n < |ops|
    ensures forall ts :: ServeAll(ts, Reqs(ops[..n + 1])) == PoolTiles.Serve(ServeAll(ts, Reqs(ops[..n])), Req(ops[n]))
  {
    hide PoolTiles.Serve;
    assert Reqs(ops[..n + 1])[..n] == Reqs(ops[..n]) && Reqs(ops[..n + 1])[n] == Req(ops[n]);
  }

  lemma FitIsLowest(ts: seq<Tile>, i: nat, need: nat)
    requires LowestFit(ts, i, need) || (i == |ts| && NoFit(ts, need))
    ensures Lowest(ts, need) == i
  {
    if i == |ts| { assert forall j :: 0 <= j < i && ts[j].free ==> FreeAt(ts, j); }
    LowestIs(ts, i, need);
  }

  /** A request beyond the buffer fits nowhere. */
  lemma TooLarge(ts: seq<Tile>, bytes: nat, total: nat)
    requires Span(ts, 1, total) && bytes >= total * CELL
    ensures NoFit(ts, Cells(bytes))
  {
    SpanRange(ts, 1, total);
    assert Cells(bytes) > total;
  }

  class Pool {
    const total: nat
    const sizes: array<int>
    const nexts: array<int>
    var freeList: int
    ghost var tiles: seq<Tile>

    /** The buffer is tiled and the free list is that of the free tiles. */
    ghost predicate Linked()
      reads this, sizes, nexts
    {
      && 1 < total == sizes.Length == nexts.Length && sizes != nexts
      && Span(tiles, 1, total) && Stored(tiles, sizes[..]) && Chain(FreeOf(tiles), nexts[..], freeList)
    }

    ghost predicate Valid()
      reads this, sizes, nexts
    {
      Linked() && Coalesced(tiles)
    }

    /** `yyjson_alc_pool_init` for a buffer that has room: one free chunk. */
    constructor (total: nat)
      requires total > 1
      ensures Valid() && this.total == total && tiles == [Tile(1, total - 1, true)] && fresh(sizes) && fresh(nexts)
    {
      this.total := total;
      sizes := new int[total](_ => 0);
      nexts := new int[total](_ => NIL);
      freeList := 1;
      tiles := [Tile(1, total - 1, true)];
      new;
      sizes[1] := total - 1;
      nexts[1] := NIL;
      assert tiles[1..] == [];
      assert FreeOf(tiles) == [1] by { FreeHead(tiles); }
    }

    /** `yyjson_alc_pool_init`: the buffer of `bytes` bytes at `address` is aligned first. */
    static method Init(address: nat, bytes: nat) returns (pool: Pool?)
      requires address < ADDRESSES
      ensures pool == null <==> bytes < CELL * 4 || AlignUp(address) == 0
      ensures pool != null ==> fresh(pool) && pool.Valid() && pool.tiles == [Tile(1, pool.total - 1, true)]
      ensures pool != null ==> address <= AlignUp(address) && AlignUp(address) % CELL == 0
      ensures pool != null ==> AlignUp(address) + pool.total * CELL <= address + bytes < AlignUp(address) + (pool.total + 1) * CELL
    {
      pool := null;
      if bytes < CELL * 4 { return; }
      var ctx := AlignUp(address);
      if ctx == 0 { return; }
      pool := new Pool((bytes - (ctx - address)) / CELL);
    }

    /** The part of `pool_malloc` that takes the chunk `cur`. */
    method Use(ghost k: nat, prev: int, cur: nat, need: nat) returns (ghost i: nat)
      requires Linked() && 0 < need
      requires k < |FreeOf(tiles)| && prev == At(FreeOf(tiles), k - 1) && cur == FreeOf(tiles)[k]
      requires cur < total && sizes[cur] >= need
      modifies this, sizes, nexts
      ensures Linked() && i < |old(tiles)| && old(tiles)[i].at == cur && FreeOf(old(tiles)[..i]) == FreeOf(old(tiles))[..k]
      ensures old(tiles)[i].free && need <= old(tiles)[i].len && tiles == Take(old(tiles), i, need)
    {
      ghost var ts := tiles;
      i := CarveFacts(ts, k, need, total, sizes[..]);
      hide Span, FreeOf, Take, Chain, Stored, Carved, Resized;
      ghost var before := sizes[..];
      freeList := Carve(sizes, nexts, freeList, FreeOf(ts), k, prev, cur, need);
      TakeStored(ts, i, need, 1, total, before, sizes[..]);
      tiles := Take(ts, i, need);
    }

    /** `pool_malloc`: the lowest free chunk that is large enough, at index `i`, or nothing. */
    method Malloc(bytes: nat) returns (ptr: int, ghost i: nat)
      requires Valid()
      modifies this, sizes, nexts
      ensures Valid()
      ensures ptr == NIL ==> tiles == old(tiles) && NoFit(tiles, Cells(bytes))
      ensures ptr != NIL ==> LowestFit(old(tiles), i, Cells(bytes))
      ensures ptr != NIL ==> ptr == old(tiles)[i].at + 1 && tiles == Take(old(tiles), i, Cells(bytes))
    {
      i := 0;
      if bytes >= total * CELL {
        TooLarge(tiles, bytes, total);
        return NIL, 0;
      }
      var need := Cells(bytes);
      ghost var ts := tiles;
      var k, prev, cur := FirstFit(sizes, nexts, freeList, FreeOf(ts), need);
      SmallBefore(ts, sizes[..], k, need);
      if cur == NIL { return NIL, 0; }
      hide Span, FreeOf, Chain, Stored, Coalesced, Take;
      i := Use(k, prev, cur, need);
      TakeCoalesced(ts, i, need);
      ptr := cur + 1;
    }

    /** `pool_free` links the chunk in ... */
    method Relink(cur: nat, ghost i: nat) returns (ghost k: nat, prev: int, next: int)
      requires Linked() && i < |tiles| && !tiles[i].free && cur == tiles[i].at
      modifies this, nexts
      ensures Linked() && tiles == Mark(old(tiles), i) && k == |FreeOf(tiles[..i])|
      ensures k < |FreeOf(tiles)| && FreeOf(tiles)[k] == cur
      ensures prev == At(FreeOf(tiles), k - 1) && next == At(FreeOf(tiles), k + 1)
    {
      ghost var free, ts := FreeOf(tiles), tiles;
      k, prev, next := Locate(nexts, freeList, free, cur);
      LiveSplit(ts, i, k, total);
      hide FreeOf, Span, Chain, Stored;
      freeList := Insert(nexts, freeList, free, k, prev, cur, next);
      tiles := Mark(ts, i);
    }

    /** ... joins it with the chunk above or below ... */
    method JoinUp(ghost i: nat, ghost k: nat, cur: nat, next: nat)
      requires Linked() && FreeAt(tiles, i) && FreeAt(tiles, i + 1) && cur == tiles[i].at && next == tiles[i + 1].at
      requires k == |FreeOf(tiles[..i])|
      modifies this, sizes, nexts
      ensures Linked() && tiles == Join(old(tiles), i) && sizes[cur] == old(sizes[cur] + sizes[next])
      ensures forall c :: 0 <= c < total && c != cur ==> sizes[c] == old(sizes[c])
    {
      ghost var ts, free := tiles, FreeOf(tiles);
      JoinFacts(ts, i, k, total);
      assert cur < total && next < total && nexts[..][free[k]] == At(free, k + 1);
      hide FreeOf, Span, Chain;
      sizes[cur] := sizes[cur] + sizes[next];
      JoinStored(ts, i, total, old(sizes[..]), sizes[..]);
      freeList := Remove(nexts, freeList, free, k + 1, cur, next);
      tiles := Join(ts, i);
    }

    /** `pool_free`: ... and leaves no two free chunks side by side. */
    method Free(ptr: nat, ghost i: nat)
      requires Valid() && i < |tiles| && !tiles[i].free && ptr == tiles[i].at + 1
      modifies this, sizes, nexts
      ensures Valid() && tiles == Give(old(tiles), i)
    {
      GiveKeeps(tiles, i, 1, total);
      var cur := ptr - 1;
      var k, prev, next := Relink(cur, i);
      JoinAbove(i, k, cur, next);
      JoinBelow(i, k, cur, prev);
    }

    /** One operation of a program that frees only what it holds. */
    method Perform(op: Op, held: set<nat>) returns (answer: int, held': set<nat>)
      requires Valid() && held == Held(tiles)
      modifies this, sizes, nexts
      ensures Valid() && held' == Held(tiles)
      ensures tiles == PoolTiles.Serve(old(tiles), Req(op)) && answer == Answer(old(tiles), Req(op))
    {
      hide Span, Coalesced, Stored, Chain, Take, Give, Held;
      answer, held' := NIL, held;
      match op
      case Get(bytes) =>
        ghost var ts, i := tiles, 0;
        answer, i := Malloc(bytes);
        FitIsLowest(ts, if answer == NIL then |ts| else i, Cells(bytes));
        if answer != NIL {
          HeldTake(ts, i, Cells(bytes));
          held' := held + {answer - 1};
        }
      case Put(at) =>
        HeldHolder(tiles, at);
        HolderHolds(tiles, at);
        if at in held {
          HeldGive(tiles, Holder(tiles, at), 1, total);
          Free(at + 1, Holder(tiles, at));
          held' := held - {at};
        }
    }

    /** Any program on a new pool: the buffer is that of the list of chunks, and so is every
        pointer handed out. */
    method Serve(ops: seq<Op>) returns (answers: seq<int>)
      requires Valid() && Held(tiles) == {}
      modifies this, sizes, nexts
      ensures Valid() && tiles == ServeAll(old(tiles), Reqs(ops)) && |answers| == |ops|
      ensures forall j :: 0 <= j < |ops| ==> answers[j] == Answer(ServeAll(old(tiles), Reqs(ops[..j])), Req(ops[j]))
      ensures Held(tiles) == {} ==> tiles == [Tile(1, total - 1, true)]
    {
      answers := [];
      var held: set<nat> := {};
      ghost var ts := tiles;
      hide Valid, Held, PoolTiles.Serve, Answer;
      while |answers| < |ops|
        invariant |answers| <= |ops| && Valid() && held == Held(tiles) && tiles == ServeAll(ts, Reqs(ops[..|answers|]))
        invariant forall j :: 0 <= j < |answers| ==> answers[j] == Answer(ServeAll(ts, Reqs(ops[..j])), Req(ops[j]))
      {
        var answer;
        var n := |answers|;
        ReqsNext(ops, n);
        answer, held := Perform(ops[n], held);
        answers := answers + [answer];
      }
      assert ops[..|ops|] == ops;
      if held == {} { NoneHeld(); }
    }

    lemma NoneHeld()
      requires Valid() && Held(tiles) == {}
      ensures tiles == [Tile(1, total - 1, true)]
    {
      assert forall t :: t in LiveOf(tiles) ==> t.at in Held(tiles);
      AllFree(tiles, 1, total);
    }

    method JoinAbove(ghost i: nat, ghost k: nat, cur: nat, next: int)
      requires Linked() && FreeAt(tiles, i) && cur == tiles[i].at && k == |FreeOf(tiles[..i])|
      requires next == At(FreeOf(tiles), k + 1)
      modifies this, sizes, nexts
      ensures Linked() && tiles == JoinHigher(old(tiles), i) && tiles[..i] == old(tiles)[..i]
      ensures FreeAt(tiles, i) && cur == tiles[i].at && At(FreeOf(tiles), k - 1) == old(At(FreeOf(tiles), k - 1))
    {
      ghost var ts := tiles;
      NextEntry(ts, i, k, total);
      hide FreeOf, Span, Chain;
      if next != NIL && cur + sizes[cur] == next {
        JoinFacts(ts, i, k, total);
        JoinUp(i, k, cur, next);
      }
    }

    method JoinBelow(ghost i: nat, ghost k: nat, cur: nat, prev: int)
      requires Linked() && FreeAt(tiles, i) && cur == tiles[i].at && k == |FreeOf(tiles[..i])|
      requires prev == At(FreeOf(tiles), k - 1)
      modifies this, sizes, nexts
      ensures Linked() && tiles == JoinLower(old(tiles), i)
    {
      PreviousEntry(tiles, i, k, total);
      assert prev != NIL ==> FreeOf(tiles)[k - 1] < total;
      hide FreeOf, Span, Chain;
      if prev != NIL && prev + sizes[prev] == cur {
        JoinUp(i - 1, k - 1, prev, cur);
      }
    }
  }

  /** What is known of the tile behind entry `k` before it is carved. */
  lemma CarveFacts(ts: seq<Tile>, k: nat, need: nat, hi: nat, sizes: seq<int>) returns (i: nat)
    requires Span(ts, 1, hi) && Stored(ts, sizes) && k < |FreeOf(ts)| && FreeOf(ts)[k] < |sizes|
    requires 0 < need <= sizes[FreeOf(ts)[k]]
    ensures i < |ts| && ts[i].free && ts[i].at == FreeOf(ts)[k] && ts[i].len == sizes[ts[i].at] && ts[i].at + ts[i].len <= hi
    ensures FreeOf(ts[..i]) == FreeOf(ts)[..k] && Span(Take(ts, i, need), 1, hi)
    ensures k + 1 < |FreeOf(ts)| ==> FreeOf(ts)[k + 1] >= ts[i].at + ts[i].len
    ensures FreeOf(Take(ts, i, need)) == Carved(FreeOf(ts), k, ts[i].at, ts[i].len, need)
  {
    i := FreeTile(ts, k);
    hide FreeOf, Span, Take;
    SpanRange(ts, 1, hi);
    UpperEntry(ts, i, k, hi);
    CarvedList(ts, i, k, need);
    TakeSpan(ts, i, need, 1, hi);
  }

  lemma CarvedList(ts: seq<Tile>, i: nat, k: nat, need: nat)
    requires i < |ts| && need <= ts[i].len && k < |FreeOf(ts)|
    requires FreeOf(ts[..i]) == FreeOf(ts)[..k] && FreeOf(ts[i + 1..]) == FreeOf(ts)[k + 1..]
    ensures FreeOf(Take(ts, i, need)) == Carved(FreeOf(ts), k, ts[i].at, ts[i].len, need)
  {
    hide FreeOf, Take;
    FreeTake(ts, i, need);
    var f := FreeOf(ts);
    assert f[..k] + [] + f[k + 1..] == Removed(f, k);
  }

  /** The chunk `cur` leaves the free list, or its unused rest takes its place. */
  method Carve(sizes: array<int>, nexts: array<int>, head: int, ghost free: seq<nat>, ghost k: nat, prev: int, cur: nat,
               need: nat) returns (head': int)
    requires sizes != nexts && sizes.Length == nexts.Length && Chain(free, nexts[..], head)
    requires k < |free| && prev == At(free, k - 1) && cur == free[k] < sizes.Length && 0 < need
    requires 0 <= sizes[cur] && cur + sizes[cur] <= sizes.Length && (k + 1 < |free| ==> free[k + 1] >= cur + sizes[cur])
    modifies sizes, nexts
    ensures Chain(Carved(free, k, cur, old(sizes[cur]), need), nexts[..], head')
    ensures Resized(old(sizes[..]), sizes[..], cur, old(sizes[cur]), need)
  {
    hide Chain;
    if sizes[cur] >= need + 2 {
      var rest := cur + need;
      head' := Replace(nexts, head, free, k, prev, cur, rest);
      ghost var linked := nexts[..];
      sizes[rest] := sizes[cur] - need;
      sizes[cur] := need;
      assert nexts[..] == linked;
    } else {
      head' := Remove(nexts, head, free, k, prev, cur);
    }
  }

  /** The next free entry lies above the whole tile. */
  lemma UpperEntry(ts: seq<Tile>, i: nat, k: nat, hi: nat)
    requires Span(ts, 1, hi) && i < |ts| && k < |FreeOf(ts)| && FreeOf(ts[i + 1..]) == FreeOf(ts)[k + 1..]
    ensures k + 1 < |FreeOf(ts)| ==> FreeOf(ts)[k + 1] >= ts[i].at + ts[i].len
  {
    if k + 1 < |FreeOf(ts)| {
      var j := FreeTile(ts[i + 1..], 0);
      Apart(ts, 1, hi, i, i + 1 + j);
    }
  }

  /** Where a free tile stands in the free list. */
  lemma EntryOf(ts: seq<Tile>, i: nat) returns (k: nat)
    requires i < |ts| && ts[i].free
    ensures k < |FreeOf(ts)| && FreeOf(ts)[k] == ts[i].at && k == |FreeOf(ts[..i])|
  {
    FreeAround(ts, i);
    k := |FreeOf(ts[..i])|;
  }

  /** If the first `k` entries are too small, so are the tiles they stand for. */
  lemma SmallBefore(ts: seq<Tile>, sizes: seq<int>, k: nat, need: nat)
    requires Stored(ts, sizes) && k <= |FreeOf(ts)|
    requires forall j :: 0 <= j < k ==> FreeOf(ts)[j] < |sizes| && sizes[FreeOf(ts)[j]] < need
    ensures k == |FreeOf(ts)| ==> NoFit(ts, need)
    ensures forall i :: 0 <= i < |ts| && FreeOf(ts[..i]) == FreeOf(ts)[..k] ==>
              forall j :: 0 <= j < i && ts[j].free ==> ts[j].len < need
  {
    forall i, j | 0 <= j < i < |ts| && FreeOf(ts[..i]) == FreeOf(ts)[..k] && ts[j].free
      ensures ts[j].len < need
    {
      var m := EntryOf(ts[..i], j);
      assert FreeOf(ts)[m] == ts[j].at;
    }
    if k == |FreeOf(ts)| {
      forall i | FreeAt(ts, i) ensures ts[i].len < need {
        var m := EntryOf(ts, i);
      }
    }
  }

  ghost predicate AllBelow(s: seq<nat>, c: nat) { forall x :: x in s ==> x < c }

  ghost predicate AllAbove(s: seq<nat>, c: nat) { forall x :: x in s ==> x > c }

  /** The entries below a live tile and those above it. */
  lemma LiveRanges(ts: seq<Tile>, i: nat, hi: nat)
    requires Span(ts, 1, hi) && i < |ts|
    ensures AllBelow(FreeOf(ts[..i]), ts[i].at) && AllAbove(FreeOf(ts[i + 1..]), ts[i].at)
  {
    var a, r := ts[..i], ts[i..];
    assert ts == a + r && r[1..] == ts[i + 1..];
    var mid := SpanSplit(a, r, 1, hi);
    FreeRange(a, 1, mid);
    FreeRange(r[1..], mid + ts[i].len, hi);
  }

  lemma SplitPoint(p: seq<nat>, q: seq<nat>, k: nat, c: nat)
    requires AllBelow(p, c) && AllAbove(q, c) && k <= |p + q|
    requires (forall j :: 0 <= j < k ==> (p + q)[j] < c) && (forall j :: k <= j < |p + q| ==> (p + q)[j] >= c)
    ensures k == |p| && forall j :: k <= j < |p + q| ==> (p + q)[j] > c
  {
    assert forall j :: 0 <= j < |p| ==> (p + q)[j] == p[j] && p[j] in p;
    assert forall j :: |p| <= j < |p + q| ==> (p + q)[j] == q[j - |p|] && q[j - |p|] in q;
    assert k < |p + q| ==> (p + q)[k] >= c;
    assert |q| > 0 ==> (p + q)[|p|] > c;
  }

  lemma LiveSplit(ts: seq<Tile>, i: nat, k: nat, hi: nat)
    requires Span(ts, 1, hi) && i < |ts| && !ts[i].free && k <= |FreeOf(ts)|
    requires forall j :: 0 <= j < k ==> FreeOf(ts)[j] < ts[i].at
    requires forall j :: k <= j < |FreeOf(ts)| ==> FreeOf(ts)[j] >= ts[i].at
    ensures k == |FreeOf(ts[..i])| && FreeOf(Mark(ts, i)) == Inserted(FreeOf(ts), k, ts[i].at)
    ensures forall j :: k <= j < |FreeOf(ts)| ==> FreeOf(ts)[j] > ts[i].at
    ensures Span(Mark(ts, i), 1, hi) && ts[i].at < hi
  {
    hide FreeOf, Span;
    FreeAround(ts, i);
    FreeMark(ts, i);
    MarkSpan(ts, i, 1, hi);
    SpanRange(ts, 1, hi);
    LiveRanges(ts, i, hi);
    assert FreeOf(ts) == FreeOf(ts[..i]) + FreeOf(ts[i + 1..]);
    SplitPoint(FreeOf(ts[..i]), FreeOf(ts[i + 1..]), k, ts[i].at);
  }

  lemma JoinFacts(ts: seq<Tile>, i: nat, k: nat, hi: nat)
    requires Span(ts, 1, hi) && FreeAt(ts, i) && FreeAt(ts, i + 1) && k == |FreeOf(ts[..i])|
    ensures k + 1 < |FreeOf(ts)| && FreeOf(ts)[k] == ts[i].at && FreeOf(ts)[k + 1] == ts[i + 1].at
    ensures FreeOf(Join(ts, i)) == Removed(FreeOf(ts), k + 1) && Span(Join(ts, i), 1, hi)
    ensures ts[i].at < ts[i + 1].at < hi
  {
    hide FreeOf, Span;
    FreeJoin(ts, i);
    JoinSpan(ts, i, 1, hi);
    SpanRange(ts, 1, hi);
    Apart(ts, 1, hi, i, i + 1);
  }

  lemma JoinStored(ts: seq<Tile>, i: nat, hi: nat, sizes: seq<int>, sizes': seq<int>)
    requires i + 1 < |ts| && Span(ts, 1, hi) && Stored(ts, sizes) && |sizes'| == |sizes|
    requires sizes' == sizes[ts[i].at := ts[i].len + ts[i + 1].len]
    ensures Stored(Join(ts, i), sizes')
  {
    var r := Join(ts, i);
    SpanRange(ts, 1, hi);
    forall j | 0 <= j < |r|
      ensures r[j].at < |sizes'| && sizes'[r[j].at] == r[j].len
    {
      if j < i {
        assert r[j] == ts[j];
        Apart(ts, 1, hi, j, i);
      } else if j > i {
        assert r[j] == ts[j + 1];
        Apart(ts, 1, hi, i, j + 1);
      }
    }
  }

  /** A tile ends where the next one begins. */
  lemma {:induction false} Adjacent(ts: seq<Tile>, i: nat, lo: nat, hi: nat)
    requires Span(ts, lo, hi) && i < |ts|
    ensures ts[i].at + ts[i].len == if i + 1 < |ts| then ts[i + 1].at else hi
  {
    if i > 0 {
      Adjacent(ts[1..], i - 1, lo + ts[0].len, hi);
    } else {
      assert |ts| > 1 ==> ts[1..][0] == ts[1];
    }
  }

  lemma FreeCount(ts: seq<Tile>, i: nat)
    requires i < |ts|
    ensures |FreeOf(ts[..i + 1])| == |FreeOf(ts[..i])| + |Own(ts[i])|
  {
    assert ts[..i + 1][..i] == ts[..i] && ts[..i + 1][i + 1..] == [];
    FreeAround(ts[..i + 1], i);
  }

  lemma NextFree(ts: seq<Tile>, i: nat, k: nat, hi: nat)
    requires Span(ts, 1, hi) && FreeAt(ts, i) && FreeAt(ts, i + 1) && k == |FreeOf(ts[..i])|
    ensures k + 1 < |FreeOf(ts)| && FreeOf(ts)[k + 1] == ts[i + 1].at == ts[i].at + ts[i].len
  {
    FreeCount(ts, i);
    Adjacent(ts, i, 1, hi);
    var m := EntryOf(ts, i + 1);
    hide FreeOf, Span;
  }

  lemma NextApart(ts: seq<Tile>, i: nat, k: nat, hi: nat)
    requires Span(ts, 1, hi) && i < |ts| && k < |FreeOf(ts)| && !FreeAt(ts, i + 1)
    ensures ts[i].at + ts[i].len != FreeOf(ts)[k]
  {
    var j := FreeTile(ts, k);
    SpanRange(ts, 1, hi);
    Adjacent(ts, i, 1, hi);
    hide FreeOf, Span;
    if i + 1 < j { Apart(ts, 1, hi, i + 1, j); } else if j < i { Apart(ts, 1, hi, j, i); }
  }

  /** The tile behind the entry after, or before, that of tile `i`. */
  lemma NextEntry(ts: seq<Tile>, i: nat, k: nat, hi: nat)
    requires Span(ts, 1, hi) && FreeAt(ts, i) && k == |FreeOf(ts[..i])|
    ensures var next := At(FreeOf(ts), k + 1);
            next != NIL && ts[i].at + ts[i].len == next <==> FreeAt(ts, i + 1)
  {
    hide FreeOf, Span;
    if FreeAt(ts, i + 1) {
      NextFree(ts, i, k, hi);
    } else if k + 1 < |FreeOf(ts)| {
      NextApart(ts, i, k + 1, hi);
    }
  }

  lemma PreviousFree(ts: seq<Tile>, i: nat, k: nat, hi: nat)
    requires Span(ts, 1, hi) && i < |ts| && FreeAt(ts, i - 1) && k == |FreeOf(ts[..i])|
    ensures 0 < k <= |FreeOf(ts)| && FreeOf(ts)[k - 1] == ts[i - 1].at && k - 1 == |FreeOf(ts[..i - 1])|
    ensures ts[i - 1].at + ts[i - 1].len == ts[i].at
  {
    hide FreeOf, Span;
    FreeCount(ts, i - 1);
    Adjacent(ts, i - 1, 1, hi);
    var m := EntryOf(ts, i - 1);
  }

  lemma PreviousApart(ts: seq<Tile>, i: nat, k: nat, hi: nat) returns (j: nat)
    requires Span(ts, 1, hi) && i < |ts| && 0 < k <= |FreeOf(ts)| && !FreeAt(ts, i - 1)
    ensures j < |ts| && ts[j].at == FreeOf(ts)[k - 1] && ts[j].at + ts[j].len != ts[i].at
  {
    j := FreeTile(ts, k - 1);
    hide FreeOf, Span;
    SpanRange(ts, 1, hi);
    Adjacent(ts, j, 1, hi);
    if j + 1 < i { Apart(ts, 1, hi, j + 1, i); } else if i < j { Apart(ts, 1, hi, i, j); }
  }

  /** The entry before that of tile `i` ends where it begins exactly when the tile before is free. */
  lemma PreviousEntry(ts: seq<Tile>, i: nat, k: nat, hi: nat)
    requires Span(ts, 1, hi) && FreeAt(ts, i) && k == |FreeOf(ts[..i])|
    ensures FreeAt(ts, i - 1) ==> k > 0 && At(FreeOf(ts), k - 1) == ts[i - 1].at && k - 1 == |FreeOf(ts[..i - 1])|
    ensures FreeAt(ts, i - 1) ==> ts[i - 1].at + ts[i - 1].len == ts[i].at
    ensures At(FreeOf(ts), k - 1) != NIL && !FreeAt(ts, i - 1) ==>
              exists j :: 0 <= j < |ts| && ts[j].at == At(FreeOf(ts), k - 1) && ts[j].at + ts[j].len != ts[i].at
  {
    hide FreeOf, Span;
    if FreeAt(ts, i - 1) {
      PreviousFree(ts, i, k, hi);
    } else if At(FreeOf(ts), k - 1) != NIL {
      var j := PreviousApart(ts, i, k, hi);
    }
  }
}
