/** The doubly linked lists of uthash.h: every item is threaded on the application-order
    list (`next`, `prev`) and on the chain of its bucket (`hhNext`, `hhPrev`). */
module Lists {
  type Key = seq<nat>

  /** `UT_hash_handle`: the key and its hash value are set when the element is added. */
  class Item {
    const key: Key
    const hashv: nat
    var next: Item?
    var prev: Item?
    var hhNext: Item?
    var hhPrev: Item?

    constructor (key: Key, hashv: nat)
      ensures this.key == key && this.hashv == hashv
    {
      this.key, this.hashv := key, hashv;
      next, prev, hhNext, hhPrev := null, null, null, null;
    }
  }

  function At(s: seq<Item>, i: int): Item? { if 0 <= i < |s| then s[i] else null }

  function Last(s: seq<Item>): Item? { At(s, |s| - 1) }

  function Members(s: seq<Item>): set<Item> { set it | it in s }

  function Without(s: seq<Item>, k: nat): seq<Item>
    requires k < |s|
  {
    s[..k] + s[k + 1..]
  }

  ghost predicate Distinct(s: seq<Item>) {
    forall i, j :: 0 <= i < j < |s| ==> s[i] != s[j]
  }

  lemma WithoutMembers(s: seq<Item>, k: nat)
    requires k < |s| && Distinct(s)
    ensures Distinct(Without(s, k)) && Members(Without(s, k)) == Members(s) - {s[k]}
  {
    var w := Without(s, k);
    forall it | it in s && it != s[k]
      ensures it in w
    {
      var i :| 0 <= i < |s| && s[i] == it;
      assert w[if i < k then i else i - 1] == it;
    }
  }

  // ---------------------------------------------------------------- application order

  ghost predicate Listed(s: seq<Item>)
    reads s`next, s`prev
  {
    && Distinct(s)
    && (forall i {:trigger s[i].next} :: 0 <= i < |s| ==> s[i].next == At(s, i + 1))
    && (forall i {:trigger s[i].prev} :: 0 <= i < |s| ==> s[i].prev == At(s, i - 1))
  }

  /** `HASH_APPEND_LIST` */
  method Append(ghost s: seq<Item>, tail: Item, it: Item)
    requires Listed(s) && it !in s && tail == Last(s)
    modifies it`next, it`prev, s`next
    ensures Listed(s + [it])
  {
    it.next := null;
    it.prev := tail;
    tail.next := it;
  }

  /** The list part of `HASH_DELETE_HH`. */
  method Remove(ghost s: seq<Item>, ghost k: nat, head: Item, tail: Item, it: Item) returns (head': Item?, tail': Item?)
    requires k < |s| && Listed(s) && it == s[k] && head == At(s, 0) && tail == Last(s) && |s| > 1
    modifies s`next, s`prev
    ensures Listed(Without(s, k)) && head' == At(Without(s, k), 0) && tail' == Last(Without(s, k))
  {
    head' := if it.prev != null then head else it.next;
    tail' := if it == tail then it.prev else tail;
    WithoutEnds(s, k);
    Bypass(s, k, it);
  }

  lemma WithoutEnds(s: seq<Item>, k: nat)
    requires k < |s| && |s| > 1 && Distinct(s)
    ensures At(Without(s, k), 0) == (if k == 0 then s[1] else s[0])
    ensures Last(Without(s, k)) == (if s[k] == Last(s) then At(s, k - 1) else Last(s))
  {
    var w := Without(s, k);
    assert w[|w| - 1] == if k == |s| - 1 then s[k - 1] else s[|s| - 1];
  }

  method Bypass(ghost s: seq<Item>, ghost k: nat, it: Item)
    requires k < |s| && Listed(s) && it == s[k]
    modifies s`next, s`prev
    ensures Listed(Without(s, k))
  {
    if it.prev != null { it.prev.next := it.next; }
    if it.next != null { it.next.prev := it.prev; }
    WithoutMembers(s, k);
    ghost var w := Without(s, k);
    forall i | 0 <= i < |w|
      ensures w[i].next == At(w, i + 1) && w[i].prev == At(w, i - 1)
    {
      ghost var j := if i < k then i else i + 1;
      assert w[i] == s[j];
    }
  }

  // ---------------------------------------------------------------- bucket chains

  ghost predicate Chained(c: seq<Item>)
    reads c`hhNext, c`hhPrev
  {
    && Distinct(c)
    && (forall i {:trigger c[i].hhNext} :: 0 <= i < |c| ==> c[i].hhNext == At(c, i + 1))
    && (forall i {:trigger c[i].hhPrev} :: 0 <= i < |c| ==> c[i].hhPrev == At(c, i - 1))
  }

  /** The linking part of `HASH_ADD_TO_BKT`. */
  method PushFront(ghost c: seq<Item>, head: Item?, it: Item)
    requires Chained(c) && it !in c && head == At(c, 0)
    modifies it`hhNext, it`hhPrev, c`hhPrev
    ensures Chained([it] + c)
  {
    it.hhNext := head;
    it.hhPrev := null;
    if head != null { head.hhPrev := it; }
  }

  /** The linking part of `HASH_DEL_IN_BKT`. */
  method Unlink(ghost c: seq<Item>, ghost k: nat, head: Item?, it: Item) returns (head': Item?)
    requires k < |c| && Chained(c) && it == c[k] && head == At(c, 0)
    modifies c`hhNext, c`hhPrev
    ensures Chained(Without(c, k)) && head' == At(Without(c, k), 0)
  {
    head' := head;
    if head == it { head' := it.hhNext; }
    if it.hhPrev != null { it.hhPrev.hhNext := it.hhNext; }
    if it.hhNext != null { it.hhNext.hhPrev := it.hhPrev; }
    WithoutMembers(c, k);
    ghost var w := Without(c, k);
    forall i | 0 <= i < |w|
      ensures w[i].hhNext == At(w, i + 1) && w[i].hhPrev == At(w, i - 1)
    {
      ghost var j := if i < k then i else i + 1;
      assert w[i] == c[j];
    }
  }
}
