/** `HASH_SRT`: the merge sort of `MergeSort` carried out on the application-order list by
    relinking its items. */
module ListSort {
  import opened Lists
  import opened MergeSort

  /** What the pass has put out: linked, except that the last `next` is still to be set. */
  ghost predicate Emitted(out: seq<Item>)
    reads out`next, out`prev
  {
    && Distinct(out)
    && (forall k {:trigger out[k].next} :: 0 <= k < |out| - 1 ==> out[k].next == At(out, k + 1))
    && (forall k {:trigger out[k].prev} :: 0 <= k < |out| ==> out[k].prev == At(out, k - 1))
  }

  /** A stretch of the list that the pass has not touched yet. */
  ghost predicate Ahead(s: seq<Item>, out: seq<Item>, lo: nat, hi: nat)
    requires hi <= |s|
    reads s`next
  {
    && (forall m :: lo <= m < hi ==> s[m] !in out)
    && (forall m {:trigger s[m].next} :: lo <= m < hi ==> s[m].next == At(s, m + 1))
  }

  method Emit(ghost out: seq<Item>, list: Item?, tail: Item?, e: Item) returns (list': Item?)
    requires Emitted(out) && list == At(out, 0) && tail == Last(out) && e !in out
    modifies out`next, e`prev
    ensures Emitted(out + [e]) && list' == At(out + [e], 0)
  {
    list' := list;
    if tail != null { tail.next := e; } else { list' := e; }
    e.prev := tail;
  }

  /** A merge in progress: `s[i..mid]` and `s[j..hi]` remain of the two runs. */
  ghost predicate Merging(s: seq<Item>, out: seq<Item>, i: nat, mid: nat, j: nat)
    reads s`next
  {
    Distinct(s) && i <= mid <= j <= |s| && Ahead(s, out, i, mid) && Ahead(s, out, j, |s|)
  }

  /** What they will give. */
  ghost function Rest(s: seq<Item>, i: nat, mid: nat, j: nat, hi: nat, le: (Item, Item) -> bool): seq<Item>
    requires i <= mid <= j <= hi <= |s|
  {
    Merge(s[i..mid], s[j..hi], le)
  }

  lemma MergeStarts(s: seq<Item>, out: seq<Item>, i: nat, mid: nat)
    requires Distinct(s) && i <= mid <= |s| && Ahead(s, out, i, |s|)
    ensures Merging(s, out, i, mid, mid)
  {
  }

  ghost predicate Gives(out: seq<Item>, rest: seq<Item>, target: seq<Item>) { out + rest == target }

  lemma Moved(out: seq<Item>, e: Item, rest: seq<Item>, target: seq<Item>)
    requires Gives(out, [e] + rest, target)
    ensures Gives(out + [e], rest, target)
  {
    assert out + ([e] + rest) == out + [e] + rest;
  }

  lemma MergeEnds(s: seq<Item>, out: seq<Item>, mid: nat, hi: nat, le: (Item, Item) -> bool, target: seq<Item>)
    requires Merging(s, out, mid, mid, hi) && Gives(out, Rest(s, mid, mid, hi, hi, le), target)
    ensures Ahead(s, out, hi, |s|) && out == target
  {
  }

  /** The next element of a merge. */
  method Next(ghost s: seq<Item>, ghost i: nat, ghost mid: nat, ghost j: nat, ghost hi: nat,
              p: Item?, q: Item?, psize: nat, qsize: nat, le: (Item, Item) -> bool, ghost out: seq<Item>)
    returns (e: Item, fromP: bool, after: Item?)
    requires Merging(s, out, i, mid, j) && j <= hi <= |s| && (i < mid || j < hi)
    requires psize == mid - i && (psize != 0 ==> p == s[i]) && q == At(s, j) && (qsize == 0 || q == null <==> j == hi)
    ensures fromP ==> i < mid && e == s[i] && Rest(s, i, mid, j, hi, le) == [e] + Rest(s, i + 1, mid, j, hi, le)
    ensures !fromP ==> j < hi && e == s[j] && Rest(s, i, mid, j, hi, le) == [e] + Rest(s, i, mid, j + 1, hi, le)
    ensures after == if fromP then At(s, i + 1) else At(s, j + 1)
    ensures e !in out && e in s
  {
    MergeHead(s[i..mid], s[j..hi], le);
    fromP := psize != 0 && (qsize == 0 || q == null || le(p, q));
    if fromP { e := p; } else { e := q; }
    after := e.next;
  }

  ghost predicate Output(s: seq<Item>, out: seq<Item>, list: Item?, tail: Item?)
    reads out`next, out`prev
  {
    Emitted(out) && list == At(out, 0) && tail == Last(out) && Members(out) <= Members(s)
  }

  /** One round of the inner loop of `HASH_SRT`. */
  method MergeStep(ghost s: seq<Item>, ghost i: nat, ghost mid: nat, ghost j: nat, ghost hi: nat,
                   p: Item?, q: Item?, psize: nat, qsize: nat, le: (Item, Item) -> bool,
                   list: Item?, tail: Item?, ghost out: seq<Item>)
    returns (fromP: bool, after: Item?, list': Item?, e: Item)
    requires Merging(s, out, i, mid, j) && j <= hi <= |s| && (i < mid || j < hi)
    requires psize == mid - i && (psize != 0 ==> p == s[i]) && q == At(s, j) && (qsize == 0 || q == null <==> j == hi)
    requires Output(s, out, list, tail)
    modifies Members(s)`next, Members(s)`prev
    ensures Output(s, out + [e], list', e)
    ensures fromP ==> i < mid && Merging(s, out + [e], i + 1, mid, j) && after == At(s, i + 1)
    ensures fromP ==> Rest(s, i, mid, j, hi, le) == [e] + Rest(s, i + 1, mid, j, hi, le)
    ensures !fromP ==> j < hi && Merging(s, out + [e], i, mid, j + 1) && after == At(s, j + 1)
    ensures !fromP ==> Rest(s, i, mid, j, hi, le) == [e] + Rest(s, i, mid, j + 1, hi, le)
  {
    hide Rest;
    e, fromP, after := Next(s, i, mid, j, hi, p, q, psize, qsize, le, out);
    list' := Emit(out, list, tail, e);
  }

  /** The inner loop of `HASH_SRT`: two runs are merged behind `out0`. */
  method MergeRuns(ghost s: seq<Item>, ghost i0: nat, ghost mid: nat, ghost hi: nat, p0: Item, q0: Item?,
                   psize0: nat, insize: nat, le: (Item, Item) -> bool, list0: Item?, tail0: Item?, ghost out0: seq<Item>,
                   ghost target: seq<Item>)
    returns (q: Item?, list: Item?, tail: Item?, ghost out: seq<Item>)
    requires i0 < mid <= hi <= |s| && hi == Min(mid + insize, |s|) && Merging(s, out0, i0, mid, mid)
    requires p0 == s[i0] && q0 == At(s, mid) && psize0 == mid - i0
    requires Output(s, out0, list0, tail0) && Gives(out0, Rest(s, i0, mid, mid, hi, le), target)
    modifies Members(s)`next, Members(s)`prev
    ensures out == target && q == At(s, hi)
    ensures Output(s, out, list, tail) && Ahead(s, out, hi, |s|)
  {
    ghost var i: nat, j: nat := i0, mid;
    var p: Item?, psize, qsize := p0, psize0, insize;
    q, list, tail, out := q0, list0, tail0, out0;
    hide Rest, Output, Merging, Merge, Distinct, Ahead, Gives;
    while psize != 0 || (qsize != 0 && q != null)
      invariant i <= mid <= j <= hi && Merging(s, out, i, mid, j) && Output(s, out, list, tail)
      invariant psize == mid - i && (psize != 0 ==> p == s[i]) && q == At(s, j) && qsize == insize - (j - mid)
      invariant Gives(out, Rest(s, i, mid, j, hi, le), target)
      decreases psize + qsize
    {
      var fromP, after, list', e := MergeStep(s, i, mid, j, hi, p, q, psize, qsize, le, list, tail, out);
      Moved(out, e, if fromP then Rest(s, i + 1, mid, j, hi, le) else Rest(s, i, mid, j + 1, hi, le), target);
      out, list, tail := out + [e], list', e;
      if fromP {
        p, psize, i := after, psize - 1, i + 1;
      } else {
        q, qsize, j := after, qsize - 1, j + 1;
      }
    }
    MergeEnds(s, out, mid, hi, le, target);
  }

  /** The loop of `HASH_SRT` that steps over the first run. */
  method SkipRun(ghost s: seq<Item>, ghost out: seq<Item>, ghost pos: nat, p: Item, insize: nat) returns (q: Item?, psize: nat)
    requires pos < |s| && p == s[pos] && insize > 0 && Ahead(s, out, pos, |s|)
    ensures psize == Min(insize, |s| - pos) && q == At(s, pos + psize)
  {
    q, psize := p, 0;
    while psize < insize
      invariant psize <= Min(insize, |s| - pos) && q == At(s, pos + psize)
      invariant psize < insize ==> q != null
    {
      psize := psize + 1;
      q := q.next;
      if q == null { break; }
    }
  }

  lemma PassGives(s: seq<Item>, pos: nat, n: nat, le: (Item, Item) -> bool, out: seq<Item>, target: seq<Item>)
    requires n > 0 && pos < |s| && Gives(out, Pass(s[pos..], n, le), target)
    ensures var mid, hi := Min(pos + n, |s|), Min(Min(pos + n, |s|) + n, |s|);
            && Gives(out, Rest(s, pos, mid, mid, hi, le), out + Rest(s, pos, mid, mid, hi, le))
            && Gives(out + Rest(s, pos, mid, mid, hi, le), Pass(s[hi..], n, le), target)
  {
    var t, mid, hi := s[pos..], Min(pos + n, |s|), Min(Min(pos + n, |s|) + n, |s|);
    assert t[..Min(n, |t|)] == s[pos..mid] && t[Min(n, |t|)..Min(2 * n, |t|)] == s[mid..hi];
    assert t[Min(2 * n, |t|)..] == s[hi..];
  }

  /** One merge of a pass. */
  method MergePair(ghost s: seq<Item>, ghost pos: nat, p: Item, insize: nat, le: (Item, Item) -> bool,
                   list: Item?, tail: Item?, ghost out: seq<Item>, ghost target: seq<Item>)
    returns (q: Item?, list': Item?, tail': Item?, ghost out': seq<Item>, ghost hi: nat)
    requires pos < |s| && p == s[pos] && insize > 0 && Distinct(s)
    requires Output(s, out, list, tail) && Ahead(s, out, pos, |s|) && Gives(out, Pass(s[pos..], insize, le), target)
    modifies Members(s)`next, Members(s)`prev
    ensures hi == Min(pos + 2 * insize, |s|) && q == At(s, hi)
    ensures Output(s, out', list', tail') && Ahead(s, out', hi, |s|) && Gives(out', Pass(s[hi..], insize, le), target)
  {
    hide Pass, Rest, Gives, Output, Ahead, Distinct, Merging;
    PassGives(s, pos, insize, le, out, target);
    var psize;
    q, psize := SkipRun(s, out, pos, p, insize);
    ghost var mid := pos + psize;
    hi := Min(mid + insize, |s|);
    MergeStarts(s, out, pos, mid);
    q, list', tail', out' := MergeRuns(s, pos, mid, hi, p, q, psize, insize, le, list, tail, out,
                                       out + Rest(s, pos, mid, mid, hi, le));
  }

  method PassLoop(ghost s: seq<Item>, head: Item, insize: nat, le: (Item, Item) -> bool, ghost target: seq<Item>)
    returns (list: Item?, tail: Item?, nmerges: nat, ghost out: seq<Item>)
    requires Distinct(s) && head == At(s, 0) && insize > 0
    requires Output(s, [], null, null) && Ahead(s, [], 0, |s|) && Gives([], Pass(s[0..], insize, le), target)
    modifies Members(s)`next, Members(s)`prev
    ensures Output(s, out, list, tail) && Gives(out, Pass(s[|s|..], insize, le), target)
    ensures nmerges <= 1 <==> |s| <= 2 * insize
  {
    ghost var pos: nat := 0;
    var p: Item? := head;
    list, tail, nmerges, out := null, null, 0, [];
    hide Pass, Gives, Output, Ahead, Distinct;
    while p != null
      invariant pos <= |s| && p == At(s, pos)
      invariant Output(s, out, list, tail) && Ahead(s, out, pos, |s|) && Gives(out, Pass(s[pos..], insize, le), target)
      invariant nmerges == 0 <==> pos == 0
      invariant nmerges == 1 ==> pos == Min(2 * insize, |s|)
      invariant nmerges > 1 ==> |s| > 2 * insize
      decreases |s| - pos
    {
      nmerges := nmerges + 1;
      p, list, tail, out, pos := MergePair(s, pos, p, insize, le, list, tail, out, target);
    }
  }

  lemma PassStarts(s: seq<Item>, insize: nat, le: (Item, Item) -> bool)
    requires Listed(s) && insize > 0
    ensures Output(s, [], null, null) && Ahead(s, [], 0, |s|) && Gives([], Pass(s[0..], insize, le), Pass(s, insize, le))
  {
    assert s[0..] == s;
  }

  lemma PassEnds(s: seq<Item>, out: seq<Item>, insize: nat, le: (Item, Item) -> bool, target: seq<Item>)
    requires insize > 0 && Gives(out, Pass(s[|s|..], insize, le), target)
    ensures out == target
  {
  }

  method Terminate(ghost s: seq<Item>, ghost out: seq<Item>, list: Item?, tail: Item?)
    requires Output(s, out, list, tail)
    modifies Members(s)`next
    ensures Listed(out)
  {
    if tail != null { tail.next := null; }
  }

  /** One pass of `HASH_SRT`. */
  method RunPass(ghost s: seq<Item>, head: Item, insize: nat, le: (Item, Item) -> bool)
    returns (list: Item?, tail: Item?, nmerges: nat, ghost out: seq<Item>)
    requires Listed(s) && head == At(s, 0) && insize > 0
    modifies Members(s)`next, Members(s)`prev
    ensures out == Pass(s, insize, le) && Listed(out) && list == At(out, 0) && tail == Last(out)
    ensures nmerges <= 1 <==> |s| <= 2 * insize
  {
    hide Pass, Gives, Ahead;
    PassStarts(s, insize, le);
    list, tail, nmerges, out := PassLoop(s, head, insize, le, Pass(s, insize, le));
    PassEnds(s, out, insize, le, Pass(s, insize, le));
    Terminate(s, out, list, tail);
  }

  const UNSIGNED: nat := 0x1_0000_0000

  /** `HASH_SRT`. A list that an unsigned counter can count never makes `insize` wrap. */
  method SortList(ghost s: seq<Item>, head: Item, le: (Item, Item) -> bool)
    returns (list: Item?, tail: Item?, ghost out: seq<Item>)
    requires Listed(s) && head == At(s, 0) && |s| <= UNSIGNED
    modifies Members(s)`next, Members(s)`prev
    ensures out == Sort(s, 1, le) && Listed(out) && list == At(out, 0) && tail == Last(out)
  {
    var looping, insize := true, 1;
    list, tail, out := head, null, s;
    hide Pass, Sort, Listed;
    while looping
      invariant Listed(out) && list == At(out, 0) && (looping ==> list != null)
      invariant (looping ==> 0 < insize) && Members(out) == Members(s) && |out| == |s|
      invariant looping ==> Sort(out, insize, le) == Sort(s, 1, le)
      invariant !looping ==> out == Sort(s, 1, le) && tail == Last(out)
      decreases looping, |s| - insize
    {
      SortStep(out, insize, le);
      var nmerges;
      list, tail, nmerges, out := RunPass(out, list, insize, le);
      if nmerges <= 1 { looping := false; }
      insize := insize * 2 % UNSIGNED;
    }
  }

  lemma SortStep(s: seq<Item>, n: nat, le: (Item, Item) -> bool)
    requires n > 0
    ensures var t := Pass(s, n, le);
            && |t| == |s| && Members(t) == Members(s)
            && Sort(s, n, le) == if |s| <= 2 * n then t else Sort(t, 2 * n, le)
  {
    PassPermutes(s, n, le);
    hide Pass;
    SameMembers(s, Pass(s, n, le));
  }

  lemma SameMembers(s: seq<Item>, t: seq<Item>)
    requires multiset(s) == multiset(t)
    ensures Members(s) == Members(t)
  {
    forall it | it in s ensures it in t { assert it in multiset(s); }
    forall it | it in t ensures it in s { assert it in multiset(t); }
  }
}
