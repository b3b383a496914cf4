/** How the pool allocator of yyjson.c divides its buffer. Addresses and lengths count cells of
    sixteen bytes, the size of a chunk header; cell 0 holds the allocator's own header. */
module PoolTiles {
  datatype Tile = Tile(at: nat, len: nat, free: bool)

  /** The tiles fill the cells from `lo` up to `hi` without gap or overlap. */
  ghost predicate Span(ts: seq<Tile>, lo: nat, hi: nat) {
    if ts == [] then lo == hi
    else ts[0].at == lo && ts[0].len > 0 && Span(ts[1..], lo + ts[0].len, hi)
  }

  /** No two neighbours are free. */
  ghost predicate Coalesced(ts: seq<Tile>) { forall k :: !PairFree(ts, k) }

  predicate FreeAt(ts: seq<Tile>, i: int) { 0 <= i < |ts| && ts[i].free }

  predicate PairFree(ts: seq<Tile>, k: int) { FreeAt(ts, k) && FreeAt(ts, k + 1) }

  /** The addresses of the free tiles, lowest first. */
  function FreeOf(ts: seq<Tile>): seq<nat> {
    if ts == [] then [] else Own(ts[0]) + FreeOf(ts[1..])
  }

  function Own(t: Tile): seq<nat> { if t.free then [t.at] else [] }

  // ---------------------------------------------------------------- parts

  lemma {:induction false} FreeConcat(a: seq<Tile>, b: seq<Tile>)
    ensures FreeOf(a + b) == FreeOf(a) + FreeOf(b)
  {
    if a == [] {
      assert a + b == b;
    } else {
      assert (a + b)[1..] == a[1..] + b;
      FreeConcat(a[1..], b);
    }
  }

  lemma {:induction false} SpanSplit(a: seq<Tile>, b: seq<Tile>, lo: nat, hi: nat) returns (mid: nat)
    requires Span(a + b, lo, hi)
    ensures Span(a, lo, mid) && Span(b, mid, hi) && lo <= mid
  {
    if a == [] {
      assert a + b == b;
      mid := lo;
    } else {
      assert (a + b)[1..] == a[1..] + b;
      mid := SpanSplit(a[1..], b, lo + a[0].len, hi);
    }
  }

  lemma {:induction false} SpanJoin(a: seq<Tile>, b: seq<Tile>, lo: nat, mid: nat, hi: nat)
    requires Span(a, lo, mid) && Span(b, mid, hi)
    ensures Span(a + b, lo, hi)
  {
    if a == [] {
      assert a + b == b;
    } else {
      assert (a + b)[1..] == a[1..] + b;
      SpanJoin(a[1..], b, lo + a[0].len, mid, hi);
    }
  }

  /** All tiles lie between the ends. */
  lemma {:induction false} SpanRange(ts: seq<Tile>, lo: nat, hi: nat)
    requires Span(ts, lo, hi)
    ensures lo <= hi
    ensures forall i :: 0 <= i < |ts| ==> lo <= ts[i].at && ts[i].len > 0 && ts[i].at + ts[i].len <= hi
  {
    if ts != [] { SpanRange(ts[1..], lo + ts[0].len, hi); }
  }

  lemma {:induction false} FreeRange(ts: seq<Tile>, lo: nat, hi: nat)
    requires Span(ts, lo, hi)
    ensures forall k :: 0 <= k < |FreeOf(ts)| ==> lo <= FreeOf(ts)[k] < hi
    ensures forall j, k :: 0 <= j < k < |FreeOf(ts)| ==> FreeOf(ts)[j] < FreeOf(ts)[k]
  {
    if ts != [] {
      SpanRange(ts, lo, hi);
      FreeRange(ts[1..], lo + ts[0].len, hi);
    }
  }

  lemma FreeHead(ts: seq<Tile>)
    requires ts != []
    ensures FreeOf(ts) == Own(ts[0]) + FreeOf(ts[1..])
  {
  }

  /** The tile that stands behind an entry of the free list. */
  lemma {:induction false} FreeTile(ts: seq<Tile>, k: nat) returns (i: nat)
    requires k < |FreeOf(ts)|
    ensures i < |ts| && ts[i].free && ts[i].at == FreeOf(ts)[k]
    ensures FreeOf(ts[..i]) == FreeOf(ts)[..k] && FreeOf(ts[i + 1..]) == FreeOf(ts)[k + 1..]
  {
    if ts[0].free && k == 0 {
      i := 0;
    } else {
      var d := |Own(ts[0])|;
      var j := FreeTile(ts[1..], k - d);
      i := j + 1;
      assert ts[..i][1..] == ts[1..][..j];
      assert ts[i + 1..] == ts[1..][j + 1..];
      hide FreeOf;
      FreeHead(ts);
      FreeHead(ts[..i]);
    }
  }

  // ---------------------------------------------------------------- what malloc does

  /** The tile taken for `need` cells, and the rest if it is worth splitting off. */
  function Taken(t: Tile, need: nat): seq<Tile>
    requires need <= t.len
  {
    if t.len >= need + 2 then [Tile(t.at, need, false), Tile(t.at + need, t.len - need, true)]
    else [t.(free := false)]
  }

  function Take(ts: seq<Tile>, i: nat, need: nat): seq<Tile>
    requires i < |ts| && need <= ts[i].len
  {
    ts[..i] + Taken(ts[i], need) + ts[i + 1..]
  }

  lemma TakenSpan(t: Tile, need: nat)
    requires 0 < need <= t.len
    ensures Span(Taken(t, need), t.at, t.at + t.len)
  {
    var m := Taken(t, need);
    assert t.len >= need + 2 ==> m[1..] == [m[1]];
  }

  lemma TakeSpan(ts: seq<Tile>, i: nat, need: nat, lo: nat, hi: nat)
    requires i < |ts| && 0 < need <= ts[i].len && Span(ts, lo, hi)
    ensures Span(Take(ts, i, need), lo, hi)
  {
    var a, m, b := ts[..i], Taken(ts[i], need), ts[i + 1..];
    assert ts == a + ([ts[i]] + b);
    var mid := SpanSplit(a, [ts[i]] + b, lo, hi);
    assert ([ts[i]] + b)[1..] == b;
    TakenSpan(ts[i], need);
    SpanJoin(m, b, mid, mid + ts[i].len, hi);
    SpanJoin(a, m + b, lo, mid, hi);
    assert a + (m + b) == a + m + b;
  }

  lemma TakeCoalesced(ts: seq<Tile>, i: nat, need: nat)
    requires i < |ts| && ts[i].free && need <= ts[i].len && Coalesced(ts)
    ensures Coalesced(Take(ts, i, need))
  {
    var r, m := Take(ts, i, need), Taken(ts[i], need);
    var d := |m| - 1;
    assert forall k :: 0 <= k < i ==> r[k] == ts[k];
    assert r[i] == m[0] && r[i + d] == m[d];
    assert forall k :: i + d < k < |r| ==> r[k] == ts[k - d];
    forall k ensures !PairFree(r, k) {
      assert !PairFree(ts, if k < i then k else k - d);
    }
  }

  // ---------------------------------------------------------------- what free does

  function Mark(ts: seq<Tile>, i: nat): seq<Tile>
    requires i < |ts|
  {
    ts[i := ts[i].(free := true)]
  }

  /** Tile `i` joined with the next one. */
  function Join(ts: seq<Tile>, i: nat): seq<Tile>
    requires i + 1 < |ts|
  {
    ts[..i] + [Tile(ts[i].at, ts[i].len + ts[i + 1].len, true)] + ts[i + 2..]
  }

  function JoinHigher(ts: seq<Tile>, i: nat): seq<Tile>
    requires i < |ts|
  {
    if FreeAt(ts, i + 1) then Join(ts, i) else ts
  }

  function JoinLower(ts: seq<Tile>, i: nat): seq<Tile>
    requires i < |ts|
  {
    if FreeAt(ts, i - 1) then Join(ts, i - 1) else ts
  }

  /** Tile `i` given back, and joined with the free tiles beside it. */
  function Give(ts: seq<Tile>, i: nat): seq<Tile>
    requires i < |ts|
  {
    JoinLower(JoinHigher(Mark(ts, i), i), i)
  }

  lemma JoinSpan(ts: seq<Tile>, i: nat, lo: nat, hi: nat)
    requires i + 1 < |ts| && Span(ts, lo, hi)
    ensures Span(Join(ts, i), lo, hi)
  {
    var a, b := ts[..i], ts[i + 2..];
    var j := Tile(ts[i].at, ts[i].len + ts[i + 1].len, true);
    var r := [ts[i], ts[i + 1]] + b;
    assert ts == a + r;
    var mid := SpanSplit(a, r, lo, hi);
    assert r[1..] == [ts[i + 1]] + b && r[1..][1..] == b;
    assert ([j] + b)[1..] == b;
    assert Span([j] + b, mid, hi);
    SpanJoin(a, [j] + b, lo, mid, hi);
    assert a + ([j] + b) == Join(ts, i);
  }

  lemma {:induction false} MarkSpan(ts: seq<Tile>, i: nat, lo: nat, hi: nat)
    requires i < |ts| && Span(ts, lo, hi)
    ensures Span(Mark(ts, i), lo, hi)
  {
    if i > 0 {
      MarkSpan(ts[1..], i - 1, lo + ts[0].len, hi);
      assert Mark(ts, i)[1..] == Mark(ts[1..], i - 1);
    } else {
      assert Mark(ts, i)[1..] == ts[1..];
    }
  }

  lemma GiveKeeps(ts: seq<Tile>, i: nat, lo: nat, hi: nat)
    requires i < |ts| && !ts[i].free && Span(ts, lo, hi) && Coalesced(ts)
    ensures Span(Give(ts, i), lo, hi) && Coalesced(Give(ts, i))
  {
    var t1 := Mark(ts, i);
    MarkSpan(ts, i, lo, hi);
    forall k | PairFree(t1, k) ensures k == i || k == i - 1 { assert !PairFree(ts, k); }
    var t2 := JoinHigher(t1, i);
    if FreeAt(t1, i + 1) { JoinSpan(t1, i, lo, hi); }
    HigherPairs(t1, i);
    if FreeAt(t2, i - 1) { JoinSpan(t2, i - 1, lo, hi); }
    LowerPairs(t2, i);
  }

  lemma HigherPairs(ts: seq<Tile>, i: nat)
    requires i < |ts| && forall k :: PairFree(ts, k) ==> k == i || k == i - 1
    ensures forall k :: PairFree(JoinHigher(ts, i), k) ==> k == i - 1
  {
    var r := JoinHigher(ts, i);
    if FreeAt(ts, i + 1) {
      assert forall k :: i < k < |r| ==> r[k] == ts[k + 1];
      forall k | k != i - 1 ensures !PairFree(r, k) { assert !PairFree(ts, if k < i - 1 then k else k + 1); }
    }
  }

  lemma LowerPairs(ts: seq<Tile>, i: nat)
    requires FreeAt(ts, i) && forall k :: PairFree(ts, k) ==> k == i - 1
    ensures Coalesced(JoinLower(ts, i))
  {
    var r := JoinLower(ts, i);
    if FreeAt(ts, i - 1) {
      assert forall k :: i <= k < |r| ==> r[k] == ts[k + 1];
      forall k ensures !PairFree(r, k) { assert !PairFree(ts, if k < i - 1 then k else k + 1); }
    }
  }

  // ---------------------------------------------------------------- what that means

  /** The blocks in use. */
  function LiveOf(ts: seq<Tile>): set<Tile> { set t | t in ts && !t.free }

  /** Every cell lies in exactly one tile. */
  lemma {:induction false} Partition(ts: seq<Tile>, lo: nat, hi: nat, c: nat) returns (i: nat)
    requires Span(ts, lo, hi) && lo <= c < hi
    ensures i < |ts| && ts[i].at <= c < ts[i].at + ts[i].len
    ensures forall j :: 0 <= j < |ts| && ts[j].at <= c < ts[j].at + ts[j].len ==> j == i
  {
    if c < lo + ts[0].len {
      i := 0;
      SpanRange(ts[1..], lo + ts[0].len, hi);
      assert forall j :: 1 <= j < |ts| ==> ts[j] == ts[1..][j - 1];
    } else {
      var k := Partition(ts[1..], lo + ts[0].len, hi, c);
      i := k + 1;
      assert forall j :: 1 <= j < |ts| ==> ts[j] == ts[1..][j - 1];
    }
  }

  /** Once nothing is in use, the buffer is the one initial chunk again. */
  lemma AllFree(ts: seq<Tile>, lo: nat, hi: nat)
    requires Span(ts, lo, hi) && lo < hi && Coalesced(ts) && LiveOf(ts) == {}
    ensures ts == [Tile(lo, hi - lo, true)]
  {
    assert forall i :: 0 <= i < |ts| ==> ts[i].free by {
      forall i | 0 <= i < |ts| ensures ts[i].free { assert ts[i] in ts; assert ts[i] !in LiveOf(ts); }
    }
    assert !PairFree(ts, 0);
    assert ts[1..] == [];
  }

  /** `malloc` adds one block and leaves the others alone. */
  lemma TakeLive(ts: seq<Tile>, i: nat, need: nat)
    requires i < |ts| && ts[i].free && need <= ts[i].len
    ensures exists len :: need <= len < need + 2 && LiveOf(Take(ts, i, need)) == LiveOf(ts) + {Tile(ts[i].at, len, false)}
  {
    var t, r := ts[i], Take(ts, i, need);
    var len := if t.len >= need + 2 then need else t.len;
    var n := Tile(t.at, len, false);
    assert Taken(t, need)[0] == n && r[i] == n;
    assert forall j :: 0 <= j < i ==> r[j] == ts[j];
    var d := |Taken(t, need)| - 1;
    assert forall j :: i < j < |ts| ==> r[j + d] == ts[j];
    forall x | x in LiveOf(ts) ensures x in r { var j :| 0 <= j < |ts| && ts[j] == x; assert r[if j < i then j else j + d] == x; }
    assert need <= len < need + 2 && LiveOf(r) == LiveOf(ts) + {n};
  }

  /** `free` removes one block and leaves the others alone. */
  lemma GiveLive(ts: seq<Tile>, i: nat, lo: nat, hi: nat)
    requires i < |ts| && !ts[i].free && Span(ts, lo, hi)
    ensures LiveOf(Give(ts, i)) == LiveOf(ts) - {ts[i]}
  {
    var t1 := Mark(ts, i);
    MarkLive(ts, i, lo, hi);
    var t2 := JoinHigher(t1, i);
    if FreeAt(t1, i + 1) { JoinLive(t1, i); }
    if FreeAt(t2, i - 1) { JoinLive(t2, i - 1); }
  }

  lemma MarkLive(ts: seq<Tile>, i: nat, lo: nat, hi: nat)
    requires i < |ts| && !ts[i].free && Span(ts, lo, hi)
    ensures LiveOf(Mark(ts, i)) == LiveOf(ts) - {ts[i]}
  {
    var r := Mark(ts, i);
    forall x | x in LiveOf(ts) && x != ts[i] ensures x in r { var j :| 0 <= j < |ts| && ts[j] == x; assert r[j] == x; }
    SpanRange(ts, lo, hi);
    forall j | 0 <= j < |ts| && j != i ensures ts[j] != ts[i] { Apart(ts, lo, hi, if i < j then i else j, if i < j then j else i); }
  }

  lemma {:induction false} Apart(ts: seq<Tile>, lo: nat, hi: nat, i: nat, j: nat)
    requires Span(ts, lo, hi) && i < j < |ts|
    ensures ts[i].at + ts[i].len <= ts[j].at
  {
    if i > 0 { Apart(ts[1..], lo + ts[0].len, hi, i - 1, j - 1); }
    else {
      SpanRange(ts[1..], lo + ts[0].len, hi);
      assert ts[1..][j - 1] == ts[j];
    }
  }

  lemma JoinLive(ts: seq<Tile>, i: nat)
    requires i + 1 < |ts| && ts[i].free && ts[i + 1].free
    ensures LiveOf(Join(ts, i)) == LiveOf(ts)
  {
    var r := Join(ts, i);
    assert forall j :: 0 <= j < i ==> r[j] == ts[j];
    assert forall j :: i + 2 <= j < |ts| ==> r[j - 1] == ts[j];
    forall x | x in LiveOf(ts) ensures x in r { var j :| 0 <= j < |ts| && ts[j] == x; assert r[if j < i then j else j - 1] == x; }
  }

  // ---------------------------------------------------------------- the free list afterwards

  /** The free list, cut at the tile at index `i`. */
  lemma FreeAround(ts: seq<Tile>, i: nat)
    requires i < |ts|
    ensures FreeOf(ts) == FreeOf(ts[..i]) + Own(ts[i]) + FreeOf(ts[i + 1..])
  {
    var r := ts[i..];
    assert ts == ts[..i] + r && r[1..] == ts[i + 1..];
    FreeHead(r);
    hide FreeOf;
    FreeConcat(ts[..i], r);
  }

  lemma FreeTaken(t: Tile, need: nat)
    requires need <= t.len
    ensures FreeOf(Taken(t, need)) == if t.len >= need + 2 then [t.at + need] else []
  {
    var m := Taken(t, need);
    FreeHead(m);
    if t.len >= need + 2 {
      assert m[1..] == [m[1]];
      FreeHead([m[1]]);
    }
  }

  lemma FreeTake(ts: seq<Tile>, i: nat, need: nat)
    requires i < |ts| && need <= ts[i].len
    ensures FreeOf(Take(ts, i, need)) == FreeOf(ts[..i]) + FreeOf(Taken(ts[i], need)) + FreeOf(ts[i + 1..])
    ensures FreeOf(Taken(ts[i], need)) == if ts[i].len >= need + 2 then [ts[i].at + need] else []
  {
    var m := Taken(ts[i], need);
    FreeTaken(ts[i], need);
    hide FreeOf;
    FreeConcat(ts[..i], m);
    FreeConcat(ts[..i] + m, ts[i + 1..]);
  }

  lemma FreeMark(ts: seq<Tile>, i: nat)
    requires i < |ts|
    ensures FreeOf(Mark(ts, i)) == FreeOf(ts[..i]) + [ts[i].at] + FreeOf(ts[i + 1..])
  {
    var r := Mark(ts, i);
    assert r[..i] == ts[..i] && r[i + 1..] == ts[i + 1..];
    FreeAround(r, i);
  }

  lemma FreeJoin(ts: seq<Tile>, i: nat)
    requires FreeAt(ts, i) && FreeAt(ts, i + 1)
    ensures FreeOf(ts) == FreeOf(ts[..i]) + [ts[i].at, ts[i + 1].at] + FreeOf(ts[i + 2..])
    ensures FreeOf(Join(ts, i)) == FreeOf(ts[..i]) + [ts[i].at] + FreeOf(ts[i + 2..])
  {
    var r := Join(ts, i);
    assert r[..i] == ts[..i] && r[i + 1..] == ts[i + 2..];
    hide FreeOf;
    FreeAround(r, i);
    FreeAround(ts, i);
    var b := ts[i + 1..];
    assert b[1..] == ts[i + 2..];
    FreeHead(b);
  }

  // ---------------------------------------------------------------- whole runs

  datatype Request = Acquire(need: nat) | Release(at: nat)

  /** The index of the lowest free tile of `need` cells, or the number of tiles. */
  function Lowest(ts: seq<Tile>, need: nat): nat {
    if ts == [] || (ts[0].free && ts[0].len >= need) then 0 else 1 + Lowest(ts[1..], need)
  }

  lemma {:induction false} LowestFits(ts: seq<Tile>, need: nat)
    ensures Lowest(ts, need) <= |ts|
    ensures Lowest(ts, need) < |ts| ==> ts[Lowest(ts, need)].free && ts[Lowest(ts, need)].len >= need
    ensures forall j :: 0 <= j < Lowest(ts, need) && ts[j].free ==> ts[j].len < need
  {
    if ts != [] && !(ts[0].free && ts[0].len >= need) { LowestFits(ts[1..], need); }
  }

  lemma {:induction false} LowestIs(ts: seq<Tile>, i: nat, need: nat)
    requires i <= |ts| && (i < |ts| ==> ts[i].free && ts[i].len >= need)
    requires forall j :: 0 <= j < i && ts[j].free ==> ts[j].len < need
    ensures Lowest(ts, need) == i
  {
    if i > 0 {
      forall j | 0 <= j < i - 1 && ts[1..][j].free ensures ts[1..][j].len < need { assert ts[1..][j] == ts[j + 1]; }
      LowestIs(ts[1..], i - 1, need);
    }
  }

  /** The index of the block in use at `at`, or the number of tiles. */
  function Holder(ts: seq<Tile>, at: nat): nat {
    if ts == [] || (!ts[0].free && ts[0].at == at) then 0 else 1 + Holder(ts[1..], at)
  }

  lemma {:induction false} HolderHolds(ts: seq<Tile>, at: nat)
    ensures Holder(ts, at) <= |ts|
    ensures Holder(ts, at) < |ts| ==> !ts[Holder(ts, at)].free && ts[Holder(ts, at)].at == at
    ensures forall j :: 0 <= j < Holder(ts, at) && !ts[j].free ==> ts[j].at != at
  {
    if ts != [] && !(!ts[0].free && ts[0].at == at) { HolderHolds(ts[1..], at); }
  }

  /** The addresses of the blocks in use. */
  function Held(ts: seq<Tile>): set<nat> { set t | t in LiveOf(ts) :: t.at }

  lemma HeldHolder(ts: seq<Tile>, at: nat)
    ensures at in Held(ts) <==> Holder(ts, at) < |ts|
  {
    HolderHolds(ts, at);
    if Holder(ts, at) < |ts| { assert ts[Holder(ts, at)] in LiveOf(ts); }
    if at in Held(ts) {
      var t :| t in LiveOf(ts) && t.at == at;
      var j :| 0 <= j < |ts| && ts[j] == t;
    }
  }

  lemma HeldTake(ts: seq<Tile>, i: nat, need: nat)
    requires i < |ts| && ts[i].free && need <= ts[i].len
    ensures Held(Take(ts, i, need)) == Held(ts) + {ts[i].at}
  {
    TakeLive(ts, i, need);
    hide LiveOf, Take;
    var len :| LiveOf(Take(ts, i, need)) == LiveOf(ts) + {Tile(ts[i].at, len, false)};
    assert Tile(ts[i].at, len, false) in LiveOf(Take(ts, i, need));
    forall a | a in Held(ts) ensures a in Held(Take(ts, i, need)) {
      var t :| t in LiveOf(ts) && t.at == a;
      assert t in LiveOf(Take(ts, i, need));
    }
  }

  lemma HeldGive(ts: seq<Tile>, i: nat, lo: nat, hi: nat)
    requires i < |ts| && !ts[i].free && Span(ts, lo, hi)
    ensures Held(Give(ts, i)) == Held(ts) - {ts[i].at}
  {
    GiveLive(ts, i, lo, hi);
    SpanRange(ts, lo, hi);
    forall t | t in LiveOf(ts) && t.at == ts[i].at ensures t == ts[i] {
      var j :| 0 <= j < |ts| && ts[j] == t;
      if j < i { Apart(ts, lo, hi, j, i); } else if i < j { Apart(ts, lo, hi, i, j); }
    }
    assert ts[i] in LiveOf(ts);
    hide LiveOf, Give, Span;
    forall a | a in Held(ts) && a != ts[i].at ensures a in Held(Give(ts, i)) {
      var t :| t in LiveOf(ts) && t.at == a;
      assert t in LiveOf(Give(ts, i));
    }
  }

  /** What a request does; one that cannot be met does nothing. */
  function Serve(ts: seq<Tile>, r: Request): seq<Tile> {
    match r
    case Acquire(need) => LowestFits(ts, need); if Lowest(ts, need) < |ts| then Take(ts, Lowest(ts, need), need) else ts
    case Release(at) => HolderHolds(ts, at); if Holder(ts, at) < |ts| then Give(ts, Holder(ts, at)) else ts
  }

  /** The cell behind the header of the block that a request gets, or -1. */
  function Answer(ts: seq<Tile>, r: Request): int {
    match r
    case Acquire(need) => LowestFits(ts, need); if Lowest(ts, need) < |ts| then ts[Lowest(ts, need)].at + 1 else -1
    case Release(_) => -1
  }

  function ServeAll(ts: seq<Tile>, rs: seq<Request>): seq<Tile> {
    if rs == [] then ts else Serve(ServeAll(ts, rs[..|rs| - 1]), rs[|rs| - 1])
  }

  /** After any requests the buffer is partitioned and coalesced, and whenever nothing is in
      use it is the initial chunk. */
  lemma {:induction false} EveryRun(total: nat, rs: seq<Request>)
    requires total > 1 && forall k :: 0 <= k < |rs| && rs[k].Acquire? ==> rs[k].need > 0
    ensures var ts := ServeAll([Tile(1, total - 1, true)], rs);
            && Span(ts, 1, total) && Coalesced(ts)
            && (LiveOf(ts) == {} ==> ts == [Tile(1, total - 1, true)])
  {
    var start := [Tile(1, total - 1, true)];
    if rs == [] {
      assert start[1..] == [];
    } else {
      EveryRun(total, rs[..|rs| - 1]);
      var ts, r := ServeAll(start, rs[..|rs| - 1]), rs[|rs| - 1];
      hide Span, Coalesced, LiveOf, Take, Give;
      ServeKeeps(ts, r, 1, total);
      if LiveOf(Serve(ts, r)) == {} { AllFree(Serve(ts, r), 1, total); }
    }
  }

  lemma ServeKeeps(ts: seq<Tile>, r: Request, lo: nat, hi: nat)
    requires Span(ts, lo, hi) && Coalesced(ts) && (r.Acquire? ==> r.need > 0)
    ensures Span(Serve(ts, r), lo, hi) && Coalesced(Serve(ts, r))
  {
    hide Span, Coalesced, Take, Give;
    match r
    case Acquire(need) =>
      LowestFits(ts, need);
      var i := Lowest(ts, need);
      if i < |ts| {
        TakeSpan(ts, i, need, lo, hi);
        TakeCoalesced(ts, i, need);
      }
    case Release(at) =>
      HolderHolds(ts, at);
      if Holder(ts, at) < |ts| { GiveKeeps(ts, Holder(ts, at), lo, hi); }
  }
}
