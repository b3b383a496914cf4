/** `UT_hash_table` with the head pointer through which a program holds it. The ghost fields
    say what the links mean: `app` is the application order, `chains` the buckets, and
    `model` the finite map that the table stands for. */
module HashTables {
  import opened Powers
  import opened Lists
  import opened UtHash
  import opened MergeSort
  import opened ListSort

  /** A program's use of a table. */
  datatype Op = Put(key: Key) | Cut(key: Key) | Look(key: Key)

  /** The same on a plain list of keys in the order in which they came. */
  function Apply(keys: seq<Key>, op: Op): seq<Key> {
    match op
    case Put(k) => if k in keys then keys else keys + [k]
    case Cut(k) => Drop(keys, k)
    case Look(k) => keys
  }

  function Drop(keys: seq<Key>, k: Key): seq<Key> {
    if keys == [] then [] else (if keys[0] == k then [] else [keys[0]]) + Drop(keys[1..], k)
  }

  function ApplyAll(keys: seq<Key>, ops: seq<Op>): seq<Key> {
    if ops == [] then keys else Apply(ApplyAll(keys, ops[..|ops| - 1]), ops[|ops| - 1])
  }

  lemma ApplyNext(keys: seq<Key>, ops: seq<Op>, n: nat)
    requires n < |ops|
    ensures ApplyAll(keys, ops[..n + 1]) == Apply(ApplyAll(keys, ops[..n]), ops[n])
  {
    assert ops[..n + 1][..n] == ops[..n];
  }

  /** Every answer says whether the key was there at that time. */
  ghost predicate Answered(keys: seq<Key>, ops: seq<Op>, answers: seq<bool>) {
    |answers| <= |ops| && forall i :: 0 <= i < |answers| ==> answers[i] == (ops[i].key in ApplyAll(keys, ops[..i]))
  }

  function Keys(s: seq<Item>): seq<Key> { seq(|s|, i requires 0 <= i < |s| => s[i].key) }

  lemma {:induction false} DropOther(keys: seq<Key>, k: Key)
    requires k !in keys
    ensures Drop(keys, k) == keys
  {
    if keys != [] { DropOther(keys[1..], k); }
  }

  lemma {:induction false} DropOne(keys: seq<Key>, i: nat)
    requires i < |keys| && forall a, b :: 0 <= a < b < |keys| ==> keys[a] != keys[b]
    ensures Drop(keys, keys[i]) == keys[..i] + keys[i + 1..]
  {
    if i == 0 {
      DropOther(keys[1..], keys[0]);
    } else {
      DropOne(keys[1..], i - 1);
    }
  }

  /** The items of a list are those of a map, each under its own key. */
  ghost predicate Named(s: seq<Item>, m: map<Key, Item>, hash: Key -> nat)
  {
    && (forall k :: k in m ==> m[k] in s && m[k].key == k)
    && (forall it :: it in s ==> it.key in m && m[it.key] == it && it.hashv == hash(it.key))
  }

  lemma NamedWithout(s: seq<Item>, m: map<Key, Item>, hash: Key -> nat, k: nat)
    requires Named(s, m, hash) && Distinct(s) && k < |s|
    ensures Named(Without(s, k), m - {s[k].key}, hash)
  {
    var w := Without(s, k);
    WithoutMembers(s, k);
    assert forall it :: it in w <==> it in Members(w);
    assert forall it :: it in s <==> it in Members(s);
  }

  lemma KeysOfMap(s: seq<Item>, m: map<Key, Item>, hash: Key -> nat)
    requires Named(s, m, hash) && Distinct(s)
    ensures forall k :: k in Keys(s) <==> k in m
    ensures forall i, j :: 0 <= i < j < |s| ==> Keys(s)[i] != Keys(s)[j]
  {
    forall k | k in m ensures k in Keys(s) {
      var i :| 0 <= i < |s| && s[i] == m[k];
      assert Keys(s)[i] == k;
    }
  }

  lemma CutKeys(s: seq<Item>, m: map<Key, Item>, hash: Key -> nat, k: nat)
    requires Named(s, m, hash) && Distinct(s) && k < |s|
    ensures Keys(Without(s, k)) == Drop(Keys(s), s[k].key)
    ensures forall it :: it in Without(s, k) ==> it in s
  {
    KeysOfMap(s, m, hash);
    DropOne(Keys(s), k);
    KeysWithout(s, k);
  }

  lemma KeysWithout(s: seq<Item>, k: nat)
    requires k < |s|
    ensures Keys(Without(s, k)) == Keys(s)[..k] + Keys(s)[k + 1..]
  {
  }

  lemma NamedPermuted(s: seq<Item>, t: seq<Item>, m: map<Key, Item>, hash: Key -> nat)
    requires Named(s, m, hash) && multiset(s) == multiset(t)
    ensures Named(t, m, hash) && Members(s) == Members(t) && |s| == |t|
  {
    SameMembers(s, t);
    assert forall it :: it in s <==> it in Members(s);
    assert forall it :: it in t <==> it in Members(t);
    assert |s| == |multiset(s)| && |t| == |multiset(t)|;
  }

  /** `t` is `s` in another order; and where `le` is a preorder, it is sorted, and equal
      items stand in the order in which they stood in `s`. */
  ghost predicate StablySorted(s: seq<Item>, t: seq<Item>, le: (Item, Item) -> bool) {
    && multiset(t) == multiset(s)
    && (Preorder(Members(s), le) ==> Sorted(t, le))
    && (Preorder(Members(s), le) ==> forall it :: it in t ==> Equals(t, it, le) == Equals(s, it, le))
  }

  lemma SortedStable(s: seq<Item>, le: (Item, Item) -> bool)
    ensures StablySorted(s, Sort(s, 1, le), le)
  {
    SortPermutes(s, 1, le);
    SameMembers(s, Sort(s, 1, le));
    RunsOfOne(s, le);
    if Preorder(Members(s), le) {
      hide Preorder, Equals, Sort, Runs, Sorted;
      forall it | it in Members(s) ensures Equals(Sort(s, 1, le), it, le) == Equals(s, it, le) && Sorted(Sort(s, 1, le), le) {
        SortCorrect(s, 1, it, le, Members(s));
      }
    }
  }

  lemma DeleteFacts(s: seq<Item>, m: map<Key, Item>, hash: Key -> nat, k: nat)
    requires Named(s, m, hash) && Distinct(s) && k < |s|
    ensures Named(Without(s, k), m - {s[k].key}, hash)
    ensures Members(Without(s, k)) == Members(s) - {s[k]} && |Without(s, k)| == |s| - 1
  {
    hide Named;
    NamedWithout(s, m, hash, k);
    WithoutMembers(s, k);
  }

  lemma SortFacts(s: seq<Item>, m: map<Key, Item>, hash: Key -> nat, le: (Item, Item) -> bool)
    requires Named(s, m, hash)
    ensures StablySorted(s, Sort(s, 1, le), le) && Named(Sort(s, 1, le), m, hash)
    ensures Members(Sort(s, 1, le)) == Members(s) && |Sort(s, 1, le)| == |s|
  {
    hide Sort, Named;
    SortedStable(s, le);
    NamedPermuted(s, Sort(s, 1, le), m, hash);
  }

  class HashTable {
    const hash: Key -> nat
    var head: Item?
    var tail: Item?
    var buckets: array<Bucket>
    var numBuckets: nat
    var log2: nat
    var numItems: nat
    var ideal: nat
    var nonideal: nat
    var ineff: nat
    var noexpand: bool
    ghost var app: seq<Item>
    ghost var chains: seq<seq<Item>>
    ghost var model: map<Key, Item>

    constructor (hash: Key -> nat)
      ensures Valid() && app == [] && model == map[] && this.hash == hash
    {
      this.hash := hash;
      head, tail := null, null;
      buckets := new Bucket[0];
      numBuckets, log2, numItems, ideal, nonideal, ineff, noexpand := 0, 0, 0, 0, 0, 0, false;
      app, chains, model := [], [], map[];
    }

    ghost predicate InList()
      reads this`app, this`head, this`tail, app`next, app`prev
    {
      Listed(app) && head == At(app, 0) && (head != null ==> tail == Last(app))
    }

    ghost predicate InBuckets(items: set<Item>)
      reads this`numBuckets, this`buckets, this`log2, this`chains, buckets
      reads items`hhNext, items`hhPrev
    {
      numBuckets == buckets.Length == Pow(2, log2) && Filed(buckets[..], chains, items)
    }

    ghost predicate InMap()
      reads this`app, this`model
    {
      Named(app, model, hash)
    }

    /** What `HASH_FSCK` checks, and that the keys tell the items apart. */
    ghost predicate Valid()
      reads this, buckets, app
    {
      InList() && InMap() && (head != null ==> numItems == |app| && InBuckets(Members(app)))
    }

    /** The counters are unsigned: there is room for one more item and for doubling. */
    predicate Room()
      reads this
    {
      head != null ==> numItems + 1 < UNSIGNED && numBuckets * 2 < UNSIGNED
    }

    lemma BucketBound(items: set<Item>)
      requires InBuckets(items)
      ensures numBuckets > 0 && forall h :: ToBucket(h, numBuckets) < numBuckets
    {
      forall h: nat ensures Pow(2, log2) > 0 && ToBucket(h, Pow(2, log2)) < Pow(2, log2) { MaskIsRemainder(h, log2); }
    }

    /** `HASH_FIND_BYHASHVALUE` */
    method Find(key: Key) returns (out: Item?)
      requires Valid()
      ensures out == if key in model then model[key] else null
    {
      out := null;
      if head != null {
        BucketBound(Members(app));
        var hashv := hash(key);
        var b := ToBucket(hashv, numBuckets);
        assert Holds(buckets[..][b], chains[b], b, numBuckets, Members(app));
        hide ToBucket;
        out := FindInBucket(chains[b], buckets[b].head, key, hashv);
      }
    }

    /** `HASH_MAKE_TABLE` */
    method MakeTable()
      modifies this`buckets, this`numBuckets, this`log2, this`numItems, this`ideal, this`nonideal, this`ineff,
               this`noexpand, this`chains
      ensures fresh(buckets) && InBuckets({}) && numItems == 0 && numBuckets == 32 && ineff == 0 && !noexpand
    {
      numItems, ideal, nonideal, ineff, noexpand := 0, 0, 0, 0, false;
      numBuckets, log2 := 32, INITIAL_LOG2;
      buckets := NewBuckets(32);
      chains := NoChains(32);
      assert Pow(2, 5) == 32 by { assert Pow(2, 3) == 8; }
    }

    /** The list part of `HASH_ADD_KEYPTR_BYHASHVALUE`: the first item makes the table. */
    method EnlistFirst(it: Item)
      requires app == []
      modifies this, it`next, it`prev
      ensures InList() && app == [it] && model == old(model)
      ensures fresh(buckets) && InBuckets({}) && numItems == 0 && numBuckets == 32
    {
      it.next, it.prev := null, null;
      MakeTable();
      head, tail := it, it;
      app := [it];
    }

    /** Every further item goes to the end of the list. */
    method EnlistNext(it: Item)
      requires InList() && app != [] && it !in app
      modifies this`tail, this`app, app`next, it`next, it`prev
      ensures InList() && app == old(app) + [it]
    {
      Append(app, tail, it);
      tail := it;
      app := app + [it];
    }

    /** The part of `HASH_ADD_TO_BKT` before the table may grow. */
    method AddToBucket(it: Item, ghost items: set<Item>) returns (full: bool)
      requires InBuckets(items) && it !in items
      modifies this`chains, buckets, it`hhNext, it`hhPrev, items`hhPrev
      ensures InBuckets(items + {it})
      ensures var b := ToBucket(it.hashv, numBuckets);
              b < numBuckets && full == (buckets[b].count >= (buckets[b].expandMult + 1) * THRESHOLD)
    {
      BucketBound(items);
      hide Filed, ToBucket;
      var b := ToBucket(it.hashv, numBuckets);
      assert |chains| == numBuckets by { FiledLength(buckets[..], chains, items); }
      FileItem(buckets, chains, items, it, b, buckets[b].expandMult);
      chains := chains[b := [it] + chains[b]];
      full := buckets[b].count >= (buckets[b].expandMult + 1) * THRESHOLD;
    }

    /** `HASH_EXPAND_BUCKETS` */
    method Expand()
      requires InBuckets(Members(app)) && numBuckets * 2 < UNSIGNED
      modifies this`buckets, this`numBuckets, this`log2, this`ideal, this`nonideal, this`ineff, this`noexpand,
               this`chains, app`hhNext, app`hhPrev
      ensures fresh(buckets) && InBuckets(Members(app)) && numBuckets == 2 * old(numBuckets)
      ensures ideal == IdealLength(numItems, log2) && nonideal == Excess(chains, ideal)
      ensures ineff == (if nonideal > numItems / 2 then old(ineff) + 1 else 0)
      ensures noexpand == (old(noexpand) || ineff > 1)
    {
      hide Filed, ToBucket, Excess, Pow, IdealLength;
      PowStep(2, log2);
      BucketRange(Members(app), log2 + 1);
      var len := IdealLength(numItems, log2 + 1);
      var bs, moved, over := Rehash(buckets, chains, Members(app), numBuckets * 2, len);
      ghost var filed := bs[..];
      numBuckets, log2, buckets, chains, ideal, nonideal :=
        numBuckets * 2 % UNSIGNED, log2 + 1, bs, moved, len, over;
      assert buckets[..] == filed;
      NoteExpansion();
    }

    /** The end of `HASH_EXPAND_BUCKETS`: two expansions in a row that did not help are the last. */
    method NoteExpansion()
      modifies this`ineff, this`noexpand
      ensures ineff == (if nonideal > numItems / 2 then old(ineff) + 1 else 0)
      ensures noexpand == (old(noexpand) || ineff > 1)
    {
      ineff := if nonideal > numItems / 2 then ineff + 1 else 0;
      if ineff > 1 { noexpand := true; }
    }

    method Thread(it: Item)
      requires InList() && it !in app
      requires head != null ==> numItems == |app| && InBuckets(Members(app))
      requires Room()
      modifies this, app`next, it`next, it`prev
      ensures InList() && app == old(app) + [it] && model == old(model)
      ensures InBuckets(Members(old(app))) && numItems == |app| && numBuckets * 2 < UNSIGNED
      ensures fresh(buckets) || buckets == old(buckets)
    {
      EmptyList();
      assert app == [] ==> Members(app) == {};
      hide InBuckets, InList;
      if head == null {
        EnlistFirst(it);
      } else {
        EnlistNext(it);
      }
      numItems := (numItems + 1) % UNSIGNED;
    }

    /** `HASH_ADD_KEYPTR_BYHASHVALUE` up to `HASH_ADD_TO_TABLE`. */
    method Enlist(key: Key) returns (it: Item)
      requires Valid() && key !in model && Room()
      modifies this, app`next
      ensures fresh(it) && it.key == key
      ensures InList() && InMap() && app == old(app) + [it] && model == old(model)[key := it]
      ensures InBuckets(Members(old(app))) && numItems == |app| && numBuckets * 2 < UNSIGNED
      ensures fresh(buckets) || buckets == old(buckets)
    {
      hide InBuckets, InList;
      it := new Item(key, hash(key));
      Thread(it);
      model := model[key := it];
    }

    lemma EmptyList()
      requires InList()
      ensures head == null <==> app == []
    {
    }

    /** `HASH_ADD_TO_TABLE` */
    method Settle(it: Item, ghost items: set<Item>)
      requires InBuckets(items) && it !in items && Members(app) == items + {it}
      requires numBuckets * 2 < UNSIGNED
      modifies this`buckets, this`numBuckets, this`log2, this`ideal, this`nonideal, this`ineff, this`noexpand,
               this`chains, buckets, app`hhNext, app`hhPrev
      ensures InBuckets(Members(app)) && (fresh(buckets) || buckets == old(buckets))
    {
      hide InBuckets, Excess, IdealLength, ToBucket;
      var full := AddToBucket(it, items);
      if full && !noexpand { Expand(); }
    }

    /** `HASH_ADD_KEYPTR`: the caller answers for a new key. */
    method Add(key: Key) returns (it: Item)
      requires Valid() && key !in model && Room()
      modifies this, buckets, app`next, app`hhNext, app`hhPrev
      ensures Valid() && fresh(it) && it.key == key
      ensures app == old(app) + [it] && model == old(model)[key := it]
      ensures fresh(buckets) || buckets == old(buckets)
    {
      hide InBuckets, InList, InMap;
      ghost var items := Members(app);
      it := Enlist(key);
      assert Members(app) == items + {it};
      Settle(it, items);
    }

    /** The bucket part of `HASH_DELETE_HH`. */
    method LeaveBucket(it: Item, ghost items: set<Item>)
      requires InBuckets(items) && it in items
      modifies this`chains, buckets, items`hhNext, items`hhPrev
      ensures InBuckets(items - {it})
    {
      ghost var b0, k := ChainIndex(buckets[..], chains, items, it);
      assert |chains| == numBuckets by { FiledLength(buckets[..], chains, items); }
      hide Filed, ToBucket;
      var b := ToBucket(it.hashv, numBuckets);
      UnfileItem(buckets, chains, items, it, b, k);
      chains := chains[b := Without(chains[b], k)];
    }

    /** The list part of `HASH_DELETE_HH`, when other items stay. */
    method LeaveList(it: Item, ghost k: nat)
      requires InList() && k < |app| && app[k] == it && |app| > 1
      modifies this`head, this`tail, this`app, app`next, app`prev
      ensures InList() && app == Without(old(app), k)
    {
      head, tail := Remove(app, k, head, tail, it);
      app := Without(app, k);
    }

    lemma LoneItem(it: Item, k: nat)
      requires InList() && k < |app| && app[k] == it
      ensures it.prev == null && it.next == null <==> |app| == 1
    {
    }

    /** `HASH_DELETE_HH` when other items stay. */
    method Leave(it: Item, ghost k: nat, ghost s: seq<Item>, ghost items: set<Item>)
      requires InList() && s == app && items == Members(s) && k < |s| && s[k] == it && |s| > 1
      requires numItems == |app| && InBuckets(items)
      modifies this`head, this`tail, this`app, this`chains, this`numItems, buckets
      modifies s`next, s`prev, items`hhNext, items`hhPrev
      ensures InList() && app == Without(s, k)
      ensures numItems == |app| && InBuckets(items - {it})
    {
      assert |Without(app, k)| == |app| - 1 && it in items;
      hide InBuckets, InList, Distinct, Listed, Without, Members;
      LeaveList(it, k);
      LeaveBucket(it, items);
      numItems := numItems - 1;
    }

    /** `HASH_DELETE_HH` for the only item. */
    method Clear()
      requires |app| == 1
      modifies this`head, this`app
      ensures InList() && app == [] && head == null
    {
      head := null;
      app := [];
    }

    /** `HASH_DELETE_HH`: the last item takes the table with it. */
    method Unthread(it: Item, ghost k: nat, ghost s: seq<Item>, ghost items: set<Item>)
      requires InList() && s == app && items == Members(s) && k < |s| && s[k] == it
      requires numItems == |app| && InBuckets(items)
      modifies this`head, this`tail, this`app, this`chains, this`numItems, buckets
      modifies s`next, s`prev, items`hhNext, items`hhPrev
      ensures InList() && app == Without(s, k)
      ensures head != null ==> numItems == |app| && InBuckets(items - {it})
    {
      LoneItem(it, k);
      assert |s| == 1 ==> Without(s, k) == [];
      hide InBuckets, InList, Without, Members, Distinct;
      if it.prev == null && it.next == null {
        Clear();
      } else {
        Leave(it, k, s, items);
      }
    }

    method DeleteAt(it: Item, ghost k: nat)
      requires Valid() && k < |app| && app[k] == it
      modifies this`head, this`tail, this`app, this`chains, this`numItems, this`model, buckets
      modifies app`next, app`prev, app`hhNext, app`hhPrev
      ensures Valid() && model == old(model) - {it.key} && app == Without(old(app), k)
      ensures head != null ==> numItems < old(numItems)
    {
      DeleteFacts(app, model, hash, k);
      EmptyList();
      ghost var items := Members(app);
      hide InBuckets, Named, InList, Without, Distinct, Listed;
      model := model - {it.key};
      Unthread(it, k, app, items);
    }

    /** `HASH_DELETE` */
    method Delete(it: Item)
      requires Valid() && it in app
      modifies this`head, this`tail, this`app, this`chains, this`numItems, this`model, buckets
      modifies app`next, app`prev, app`hhNext, app`hhPrev
      ensures Valid() && model == old(model) - {it.key}
      ensures exists k :: 0 <= k < |old(app)| && old(app)[k] == it && app == Without(old(app), k)
      ensures head != null ==> numItems < old(numItems)
    {
      ghost var k :| 0 <= k < |app| && app[k] == it;
      hide Valid;
      DeleteAt(it, k);
    }

    /** The first half of `HASH_REPLACE`. */
    method Evict(key: Key) returns (replaced: Item?)
      requires Valid() && Room()
      modifies this`head, this`tail, this`app, this`chains, this`numItems, this`model, buckets
      modifies app`next, app`prev, app`hhNext, app`hhPrev
      ensures Valid() && Room() && model == old(model) - {key} && forall it :: it in app ==> it in old(app)
      ensures replaced == if key in old(model) then old(model)[key] else null
    {
      assert key in model ==> model[key] in app && model[key].key == key;
      hide Valid;
      replaced := Find(key);
      if replaced != null { Delete(replaced); }
    }

    /** `HASH_REPLACE` */
    method Replace(key: Key) returns (it: Item, replaced: Item?)
      requires Valid() && Room()
      modifies this, buckets, app`next, app`prev, app`hhNext, app`hhPrev
      ensures Valid() && fresh(it) && it.key == key && model == old(model)[key := it]
      ensures replaced == if key in old(model) then old(model)[key] else null
    {
      hide Valid, Room;
      ghost var s := app;
      replaced := Evict(key);
      assert forall i :: 0 <= i < |app| ==> app[i] in s;
      it := Add(key);
    }

    method Resort(le: (Item, Item) -> bool)
      requires InList() && |app| <= UNSIGNED
      modifies this`head, this`tail, this`app, app`next, app`prev
      ensures InList() && app == Sort(old(app), 1, le)
    {
      if head != null {
        hide Sort;
        head, tail, app := SortList(app, head, le);
      }
    }

    /** `HASH_SRT`: the application order becomes the stable sorted one, whatever the buckets
        hold; without a preorder it is still a permutation. */
    method SortItems(le: (Item, Item) -> bool)
      requires Valid() && (head != null ==> numItems < UNSIGNED)
      modifies this`head, this`tail, this`app, app`next, app`prev
      ensures Valid() && StablySorted(old(app), app, le)
    {
      EmptyList();
      SortFacts(app, model, hash, le);
      hide InBuckets, InList, Sort, Named, StablySorted;
      Resort(le);
      EmptyList();
    }

    /** `HASH_FSCK`: the check finds nothing wrong in a table built by the operations above. */
    method Check() returns (ok: bool)
      requires Valid()
      ensures ok
    {
      ok := true;
      if head != null {
        CountsAddUp(buckets[..], chains, app);
        var good, count := WalkBuckets(buckets, chains, Members(app));
        if !good || count != numItems { ok := false; }
        good, count := WalkList(app, head);
        if !good || count != numItems { ok := false; }
      }
    }

    /** One operation of a program that asks before it adds or deletes. */
    method Perform(op: Op) returns (found: bool)
      requires Valid() && (op.Put? ==> Room())
      modifies this, buckets, app`next, app`prev, app`hhNext, app`hhPrev
      ensures Valid() && Keys(app) == Apply(old(Keys(app)), op) && found == (op.key in old(Keys(app)))
      ensures fresh(buckets) || buckets == old(buckets)
      ensures forall it :: it in app ==> it in old(app) || fresh(it)
    {
      KeysOfMap(app, model, hash);
      FoundItem(op.key);
      if op.key !in Keys(app) { DropOther(Keys(app), op.key); }
      hide Valid, Drop, Keys;
      var it := Find(op.key);
      found := it != null;
      match op
      case Put(k) =>
        if !found { PerformPut(k); }
      case Cut(k) =>
        if found { PerformCut(it); }
      case Look(_) =>
    }

    lemma FoundItem(key: Key)
      requires Valid()
      ensures key in model ==> model[key] in app && model[key].key == key
    {
    }

    method PerformPut(key: Key)
      requires Valid() && Room() && key !in model
      modifies this, buckets, app`next, app`hhNext, app`hhPrev
      ensures Valid() && Keys(app) == old(Keys(app)) + [key]
      ensures fresh(buckets) || buckets == old(buckets)
      ensures forall it :: it in app ==> it in old(app) || fresh(it)
    {
      hide Valid, Room;
      var it := Add(key);
      assert Keys(app) == old(Keys(app)) + [it.key];
    }

    method PerformCut(it: Item)
      requires Valid() && it in app
      modifies this, buckets, app`next, app`prev, app`hhNext, app`hhPrev
      ensures Valid() && Keys(app) == Drop(old(Keys(app)), it.key) && buckets == old(buckets)
      ensures forall o :: o in app ==> o in old(app)
    {
      ghost var k :| 0 <= k < |app| && app[k] == it;
      CutKeys(app, model, hash, k);
      hide Valid, Drop, Keys, Without;
      DeleteAt(it, k);
    }

    /** Any sequence of operations: the table answers as the list of keys does, and keeps the
        same keys in the same order. It stops short only at a `Put` for which the counters
        have no room. */
    method Serve(ops: seq<Op>) returns (answers: seq<bool>)
      requires Valid()
      modifies this, buckets, app`next, app`prev, app`hhNext, app`hhPrev
      ensures Valid() && Answered(old(Keys(app)), ops, answers)
      ensures Keys(app) == ApplyAll(old(Keys(app)), ops[..|answers|])
      ensures |answers| < |ops| ==> ops[|answers|].Put? && !Room()
    {
      answers := [];
      ghost var keys := Keys(app);
      hide Valid, Drop, Keys, Apply;
      while |answers| < |ops|
        invariant Valid() && Answered(keys, ops, answers) && Keys(app) == ApplyAll(keys, ops[..|answers|])
        invariant fresh(buckets) || buckets == old(buckets)
        invariant forall it :: it in app ==> it in old(app) || fresh(it)
      {
        hide ApplyAll;
        var n := |answers|;
        if ops[n].Put? && !Room() { return; }
        assert forall i :: 0 <= i < |app| ==> app[i] in old(app) || fresh(app[i]);
        var found := Perform(ops[n]);
        ApplyNext(keys, ops, n);
        answers := answers + [found];
      }
    }
  }

  /** `ideal_chain_maxlen`, computed with a shift and a mask. */
  function IdealLength(items: nat, log2: nat): nat {
    PowPositive(2, log2);
    items / Pow(2, log2) + (if And(items, Pow(2, log2) - 1) != 0 then 1 else 0)
  }

  lemma BucketRange(items: set<Item>, k: nat)
    ensures Pow(2, k) > 0 && forall it :: it in items ==> ToBucket(it.hashv, Pow(2, k)) < Pow(2, k)
  {
    hide Pow, ToBucket;
    PowPositive(2, k);
    forall it | it in items ensures ToBucket(it.hashv, Pow(2, k)) < Pow(2, k) { MaskIsRemainder(it.hashv, k); }
  }

  /** The shift and the mask compute the items per bucket, rounded up. */
  lemma IdealIsCeiling(n: nat, k: nat)
    ensures var q := IdealLength(n, k);
            (q - 1) * Pow(2, k) < n <= q * Pow(2, k) || (n == 0 == q)
  {
    hide Pow, And;
    MaskIsRemainder(n, k);
    Ceiling(n, Pow(2, k));
  }

  lemma Ceiling(n: nat, d: nat)
    requires d > 0
    ensures var q := n / d + (if n % d != 0 then 1 else 0);
            (q - 1) * d < n <= q * d || (n == 0 == q)
  {
    var q, r := n / d, n % d;
    assert n == q * d + r;
    assert (q + 1) * d == q * d + d && (q - 1) * d == q * d - d;
  }
}
