/** The bottom-up merge sort of `HASH_SRT` on plain sequences. `le` stands for a comparison
    that is not positive. */
module MergeSort {
  // ---------------------------------------------------------------- the algorithm

  /** Two runs merged; of two equal elements the one of the first run comes first. */
  function Merge<T>(p: seq<T>, q: seq<T>, le: (T, T) -> bool): seq<T> {
    if p == [] then q
    else if q == [] then p
    else if le(p[0], q[0]) then [p[0]] + Merge(p[1..], q, le)
    else [q[0]] + Merge(p, q[1..], le)
  }

  function Min(a: nat, b: nat): nat { if a < b then a else b }

  /** One pass: neighbouring runs of `n` are merged two by two. */
  function Pass<T>(s: seq<T>, n: nat, le: (T, T) -> bool): seq<T>
    requires n > 0
  {
    if s == [] then []
    else
      var i, j := Min(n, |s|), Min(2 * n, |s|);
      Merge(s[..i], s[i..j], le) + Pass(s[j..], n, le)
  }

  /** Passes until one merge takes in everything. */
  function Sort<T>(s: seq<T>, n: nat, le: (T, T) -> bool): seq<T>
    requires n > 0
    decreases |s| - n
  {
    if |s| <= 2 * n then Pass(s, n, le) else Sort(Resized(s, n, le), 2 * n, le)
  }

  function Resized<T>(s: seq<T>, n: nat, le: (T, T) -> bool): (r: seq<T>)
    requires n > 0
    ensures r == Pass(s, n, le) && |r| == |s|
  {
    PassPermutes(s, n, le);
    Pass(s, n, le)
  }

  // ---------------------------------------------------------------- what it must do

  ghost predicate Preorder<T>(items: set<T>, le: (T, T) -> bool) {
    && (forall a, b :: a in items && b in items ==> le(a, b) || le(b, a))
    && (forall a, b, c :: a in items && b in items && c in items && le(a, b) && le(b, c) ==> le(a, c))
  }

  ghost predicate Sorted<T>(s: seq<T>, le: (T, T) -> bool) {
    forall i, j :: 0 <= i < j < |s| ==> le(s[i], s[j])
  }

  /** The elements equal to `x` in the order in which they come. */
  function Equals<T>(s: seq<T>, x: T, le: (T, T) -> bool): seq<T> {
    if s == [] then []
    else IfEqual(s[0], x, le) + Equals(s[1..], x, le)
  }

  function IfEqual<T>(y: T, x: T, le: (T, T) -> bool): seq<T> { if le(y, x) && le(x, y) then [y] else [] }

  // ---------------------------------------------------------------- permutation

  lemma {:induction false} MergePermutes<T>(p: seq<T>, q: seq<T>, le: (T, T) -> bool)
    ensures |Merge(p, q, le)| == |p| + |q|
    ensures multiset(Merge(p, q, le)) == multiset(p) + multiset(q)
  {
    if p != [] && q != [] {
      assert p == [p[0]] + p[1..] && q == [q[0]] + q[1..];
      if le(p[0], q[0]) { MergePermutes(p[1..], q, le); } else { MergePermutes(p, q[1..], le); }
    }
  }

  lemma {:induction false} PassPermutes<T>(s: seq<T>, n: nat, le: (T, T) -> bool)
    requires n > 0
    ensures |Pass(s, n, le)| == |s| && multiset(Pass(s, n, le)) == multiset(s)
  {
    if s != [] {
      var i, j := Min(n, |s|), Min(2 * n, |s|);
      MergePermutes(s[..i], s[i..j], le);
      PassPermutes(s[j..], n, le);
      assert s == s[..i] + s[i..j] + s[j..];
    }
  }

  /** Which run the next element comes from. */
  lemma MergeHead<T>(p: seq<T>, q: seq<T>, le: (T, T) -> bool)
    ensures p != [] && (q == [] || le(p[0], q[0])) ==> Merge(p, q, le) == [p[0]] + Merge(p[1..], q, le)
    ensures q != [] && (p == [] || !le(p[0], q[0])) ==> Merge(p, q, le) == [q[0]] + Merge(p, q[1..], le)
  {
  }

  // ---------------------------------------------------------------- order

  ghost predicate Within<T>(s: seq<T>, items: set<T>) { forall i :: 0 <= i < |s| ==> s[i] in items }

  lemma MergeMembers<T>(p: seq<T>, q: seq<T>, le: (T, T) -> bool, x: T)
    ensures x in Merge(p, q, le) <==> x in p || x in q
  {
    MergePermutes(p, q, le);
    assert x in Merge(p, q, le) <==> x in multiset(Merge(p, q, le));
    assert x in p <==> x in multiset(p);
    assert x in q <==> x in multiset(q);
  }

  /** Something not above every element of two runs stays below their merge. */
  lemma MergeAbove<T>(x: T, p: seq<T>, q: seq<T>, le: (T, T) -> bool)
    requires forall i :: 0 <= i < |p| ==> le(x, p[i])
    requires forall i :: 0 <= i < |q| ==> le(x, q[i])
    ensures forall i :: 0 <= i < |Merge(p, q, le)| ==> le(x, Merge(p, q, le)[i])
  {
    var m := Merge(p, q, le);
    forall i | 0 <= i < |m| ensures le(x, m[i]) { MergeMembers(p, q, le, m[i]); }
  }

  lemma SortedCons<T>(x: T, s: seq<T>, le: (T, T) -> bool)
    requires Sorted(s, le) && forall i :: 0 <= i < |s| ==> le(x, s[i])
    ensures Sorted([x] + s, le)
  {
  }

  lemma {:induction false} MergeSorted<T>(p: seq<T>, q: seq<T>, le: (T, T) -> bool, items: set<T>)
    requires Preorder(items, le) && Within(p, items) && Within(q, items)
    requires Sorted(p, le) && Sorted(q, le)
    ensures Sorted(Merge(p, q, le), le)
  {
    if p != [] && q != [] {
      if le(p[0], q[0]) {
        MergeSorted(p[1..], q, le, items);
        assert forall i :: 0 <= i < |q| ==> le(p[0], q[i]);
        MergeAbove(p[0], p[1..], q, le);
        SortedCons(p[0], Merge(p[1..], q, le), le);
      } else {
        MergeSorted(p, q[1..], le, items);
        assert forall i :: 0 <= i < |p| ==> le(q[0], p[i]);
        MergeAbove(q[0], p, q[1..], le);
        SortedCons(q[0], Merge(p, q[1..], le), le);
      }
    }
  }

  // ---------------------------------------------------------------- stability

  lemma {:induction false} EqualsConcat<T>(a: seq<T>, b: seq<T>, x: T, le: (T, T) -> bool)
    ensures Equals(a + b, x, le) == Equals(a, x, le) + Equals(b, x, le)
  {
    if a == [] {
      assert a + b == b;
    } else {
      assert (a + b)[1..] == a[1..] + b;
      EqualsConcat(a[1..], b, x, le);
    }
  }

  lemma {:induction false} NoEquals<T>(s: seq<T>, x: T, le: (T, T) -> bool)
    requires forall i :: 0 <= i < |s| ==> !(le(s[i], x) && le(x, s[i]))
    ensures Equals(s, x, le) == []
  {
    if s != [] { NoEquals(s[1..], x, le); }
  }

  /** Merging a sorted run with another keeps equal elements in their order. */
  lemma {:induction false} MergeStable<T>(p: seq<T>, q: seq<T>, x: T, le: (T, T) -> bool, items: set<T>)
    requires Preorder(items, le) && Within(p, items) && Within(q, items) && x in items && Sorted(p, le)
    ensures Equals(Merge(p, q, le), x, le) == Equals(p, x, le) + Equals(q, x, le)
  {
    if p != [] && q != [] {
      hide Equals, Merge;
      MergeHead(p, q, le);
      EqualsHead(p, x, le);
      EqualsHead(q, x, le);
      if le(p[0], q[0]) {
        MergeStable(p[1..], q, x, le, items);
        EqualsHead([p[0]] + Merge(p[1..], q, le), x, le);
      } else {
        MergeStable(p, q[1..], x, le, items);
        EqualsHead([q[0]] + Merge(p, q[1..], le), x, le);
        if le(q[0], x) && le(x, q[0]) { NothingEqual(p, q[0], x, le, items); }
      }
    }
  }

  lemma EqualsHead<T>(s: seq<T>, x: T, le: (T, T) -> bool)
    requires s != []
    ensures Equals(s, x, le) == IfEqual(s[0], x, le) + Equals(s[1..], x, le)
  {
  }

  /** A sorted run whose first element is above `y` holds nothing equal to `y`. */
  lemma NothingEqual<T>(p: seq<T>, y: T, x: T, le: (T, T) -> bool, items: set<T>)
    requires Preorder(items, le) && Within(p, items) && y in items && x in items && Sorted(p, le)
    requires p != [] && !le(p[0], y) && le(y, x) && le(x, y)
    ensures Equals(p, x, le) == []
  {
    NoEquals(p, x, le);
  }

  // ---------------------------------------------------------------- passes

  /** Cut into runs of `n`, the last of which may be shorter, every run is sorted. */
  ghost predicate Runs<T>(s: seq<T>, n: nat, le: (T, T) -> bool)
    requires n > 0
  {
    s == [] || (Sorted(s[..Min(n, |s|)], le) && Runs(s[Min(n, |s|)..], n, le))
  }

  lemma {:induction false} RunsOfOne<T>(s: seq<T>, le: (T, T) -> bool)
    ensures Runs(s, 1, le)
  {
    if s != [] { RunsOfOne(s[1..], le); }
  }

  lemma WithinParts<T>(s: seq<T>, items: set<T>, i: nat, j: nat)
    requires Within(s, items) && i <= j <= |s|
    ensures Within(s[..i], items) && Within(s[i..j], items) && Within(s[j..], items)
  {
  }

  /** The two runs that a pass merges first. */
  lemma FirstRuns<T>(s: seq<T>, n: nat, le: (T, T) -> bool)
    requires n > 0 && s != [] && Runs(s, n, le)
    ensures var i, j := Min(n, |s|), Min(2 * n, |s|);
            Sorted(s[..i], le) && Sorted(s[i..j], le) && Runs(s[j..], n, le)
  {
    var i, j := Min(n, |s|), Min(2 * n, |s|);
    var t := s[i..];
    if t == [] {
      assert s[i..j] == [] && s[j..] == [];
    } else {
      assert t[..Min(n, |t|)] == s[i..j] && t[Min(n, |t|)..] == s[j..];
    }
  }

  lemma {:induction false} PassRuns<T>(s: seq<T>, n: nat, le: (T, T) -> bool, items: set<T>)
    requires n > 0 && Preorder(items, le) && Within(s, items) && Runs(s, n, le)
    ensures Runs(Pass(s, n, le), 2 * n, le)
  {
    if s != [] {
      var i, j := Min(n, |s|), Min(2 * n, |s|);
      var a, b := Merge(s[..i], s[i..j], le), Pass(s[j..], n, le);
      FirstRuns(s, n, le);
      WithinParts(s, items, i, j);
      MergeSorted(s[..i], s[i..j], le, items);
      PassRuns(s[j..], n, le, items);
      MergePermutes(s[..i], s[i..j], le);
      PassPermutes(s[j..], n, le);
      ConsRun(a, b, 2 * n, le);
    }
  }

  lemma ConsRun<T>(a: seq<T>, b: seq<T>, n: nat, le: (T, T) -> bool)
    requires n > 0 && a != [] && |a| <= n && (|a| < n ==> b == []) && Sorted(a, le) && Runs(b, n, le)
    ensures Runs(a + b, n, le)
  {
    var s := a + b;
    assert s[..Min(n, |s|)] == a && s[Min(n, |s|)..] == b;
  }

  lemma {:induction false} PassStable<T>(s: seq<T>, n: nat, x: T, le: (T, T) -> bool, items: set<T>)
    requires n > 0 && Preorder(items, le) && Within(s, items) && x in items && Runs(s, n, le)
    ensures Equals(Pass(s, n, le), x, le) == Equals(s, x, le)
  {
    if s != [] {
      var i, j := Min(n, |s|), Min(2 * n, |s|);
      hide Equals, Merge;
      FirstRuns(s, n, le);
      WithinParts(s, items, i, j);
      MergeStable(s[..i], s[i..j], x, le, items);
      PassStable(s[j..], n, x, le, items);
      EqualsConcat(Merge(s[..i], s[i..j], le), Pass(s[j..], n, le), x, le);
      EqualsParts(s, i, j, x, le);
    }
  }

  lemma EqualsSplit<T>(s: seq<T>, k: nat, x: T, le: (T, T) -> bool)
    requires k <= |s|
    ensures Equals(s, x, le) == Equals(s[..k], x, le) + Equals(s[k..], x, le)
  {
    assert s == s[..k] + s[k..];
    hide Equals;
    EqualsConcat(s[..k], s[k..], x, le);
  }

  lemma EqualsParts<T>(s: seq<T>, i: nat, j: nat, x: T, le: (T, T) -> bool)
    requires i <= j <= |s|
    ensures Equals(s, x, le) == Equals(s[..i], x, le) + Equals(s[i..j], x, le) + Equals(s[j..], x, le)
  {
    hide Equals;
    EqualsSplit(s, j, x, le);
    EqualsSplit(s[..j], i, x, le);
    assert s[..j][..i] == s[..i] && s[..j][i..] == s[i..j];
  }

  // ---------------------------------------------------------------- the whole sort

  lemma {:induction false} SortPermutes<T>(s: seq<T>, n: nat, le: (T, T) -> bool)
    requires n > 0
    ensures multiset(Sort(s, n, le)) == multiset(s)
    decreases |s| - n
  {
    PassPermutes(s, n, le);
    if |s| > 2 * n { SortPermutes(Pass(s, n, le), 2 * n, le); }
  }

  lemma WithinPermuted<T>(s: seq<T>, t: seq<T>, items: set<T>)
    requires multiset(s) == multiset(t) && Within(s, items)
    ensures Within(t, items)
  {
    forall i | 0 <= i < |t| ensures t[i] in items {
      assert t[i] in multiset(t);
      assert t[i] in multiset(s);
      assert t[i] in s;
    }
  }

  /** The sort is sorted and stable. */
  lemma {:induction false} SortCorrect<T>(s: seq<T>, n: nat, x: T, le: (T, T) -> bool, items: set<T>)
    requires n > 0 && Preorder(items, le) && Within(s, items) && x in items && Runs(s, n, le)
    ensures Sorted(Sort(s, n, le), le)
    ensures Equals(Sort(s, n, le), x, le) == Equals(s, x, le)
    decreases |s| - n
  {
    var t := Pass(s, n, le);
    PassPermutes(s, n, le);
    PassRuns(s, n, le, items);
    PassStable(s, n, x, le, items);
    if |s| > 2 * n {
      WithinPermuted(s, t, items);
      SortCorrect(t, 2 * n, x, le, items);
    } else if t != [] {
      assert t[..Min(2 * n, |t|)] == t;
    }
  }
}
