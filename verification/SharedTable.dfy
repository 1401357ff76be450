/**
 * The shared read-only table (lualib-src/lua-sharedata.c): an array part, and a hash part as large
 * as it has keys, with the colliding keys chained through the slots nobody's hash leads to.
 */
module SharedTable {

  /** Integer keys fit in 32 bits; string keys stand for themselves, as the string map is one to one. */
  datatype Key = Int(i: int) | Str(s: string)

  datatype Option<T> = None | Some(value: T)

  /** `value` is None in an empty slot (VALUETYPE_NIL). */
  datatype Node<V> = Node(value: Option<V>, key: Key, next: int, keyhash: nat, nocolliding: bool)

  predicate Distinct<T(==)>(s: seq<T>) { forall i, j :: 0 <= i < j < |s| ==> s[i] != s[j] }

  /** lua_next goes through all keys of the source table once. */
  ghost predicate Visits<V>(order: seq<Key>, m: map<Key, V>) { Distinct(order) && forall k :: k in order <==> k in m }

  /** The slots of a table of size n. */
  function Slots(n: nat): (r: set<int>)
    ensures |r| == n && forall i :: i in r <==> 0 <= i < n
  {
    if n == 0 then {} else Slots(n - 1) + {n - 1}
  }

  /** A set of slots smaller than the table leaves one free. */
  lemma FreeSlot(filled: set<int>, n: nat) returns (i: int)
    requires |filled| < n
    ensures 0 <= i < n && i !in filled
  {
    if Slots(n) <= filled { SubsetSize(Slots(n), filled); }
    i :| i in Slots(n) && i !in filled;
  }

  lemma SubsetSize<T>(a: set<T>, b: set<T>)
    requires a <= b
    ensures |a| <= |b| && (|a| == |b| ==> a == b)
  {
    assert b == a + (b - a);
  }

  // ---------------------------------------------------------------- chains

  /** What is converted: the source table, the sizes of the two parts, and the hash of its keys. */
  datatype Spec<V> = Spec(source: map<Key, V>, sizearray: nat, size: nat, hashOf: Key -> nat) {

    predicate InArray(k: Key) { k.Int? && 0 < k.i <= sizearray }

    /** The keys of the hash part. */
    ghost function HashKeys(): set<Key> { set k | k in source && !InArray(k) }

    function Main(k: Key): (m: nat)
      ensures size > 0 ==> m < size
    {
      if size == 0 then 0 else hashOf(k) % size
    }
  }

  /** A filled slot holds a key of the hash part with its hash and value, in the chain of its main position. */
  ghost predicate SlotOk<V>(sp: Spec<V>, hs: seq<Node<V>>, chains: seq<seq<int>>, placed: set<Key>, i: int)
    requires 0 <= i < |hs| == |chains| == sp.size
  {
    var n := hs[i];
    n.value.Some? ==>
      && n.key in placed && n.key in sp.source && n.keyhash == sp.hashOf(n.key) && n.value == Some(sp.source[n.key])
      && i in chains[sp.Main(n.key)]
      && (n.nocolliding ==> chains[sp.Main(n.key)] == [i])
  }

  /** The j-th slot of a chain holds a key of the chain's main position and leads to the next one, if any. */
  predicate LinkOk<V>(sp: Spec<V>, hs: seq<Node<V>>, c: seq<int>, h: int, j: int)
    requires 0 <= j < |c|
  {
    && 0 <= c[j] < |hs|
    && hs[c[j]].next == (if j + 1 < |c| then c[j + 1] else -1)
    && hs[c[j]].value.Some? && sp.Main(hs[c[j]].key) == h
  }

  /** A chain starts at its main position. */
  ghost predicate ChainOk<V>(sp: Spec<V>, hs: seq<Node<V>>, c: seq<int>, h: int) {
    && (c != [] ==> c[0] == h)
    && Distinct(c)
    && forall j :: 0 <= j < |c| ==> LinkOk(sp, hs, c, h, j)
  }

  predicate Holds<V>(hs: seq<Node<V>>, i: int, k: Key) { 0 <= i < |hs| && hs[i].value.Some? && hs[i].key == k }

  ghost predicate SlotOfKey<V>(hs: seq<Node<V>>, k: Key) { exists i :: Holds(hs, i, k) }

  ghost function FilledSlots<V>(hs: seq<Node<V>>): set<int> { set i | 0 <= i < |hs| && hs[i].value.Some? }

  /** No key has two slots, and every placed key has one. */
  ghost predicate Unique<V>(sp: Spec<V>, hs: seq<Node<V>>, placed: set<Key>) {
    && (forall i, j, k :: Holds(hs, i, k) && Holds(hs, j, k) ==> i == j)
    && (forall k :: k in placed ==> k in sp.source && !sp.InArray(k) && SlotOfKey(hs, k))
    && |FilledSlots(hs)| == |placed|
  }

  /** What both filling passes keep. */
  ghost predicate Filling<V>(sp: Spec<V>, hs: seq<Node<V>>, chains: seq<seq<int>>, placed: set<Key>) {
    && |chains| == |hs| == sp.size
    && (forall i :: 0 <= i < |hs| ==> SlotOk(sp, hs, chains, placed, i))
    && (forall h :: 0 <= h < |hs| ==> ChainOk(sp, hs, chains[h], h))
    && Unique(sp, hs, placed)
  }

  /** A slot gets a key that had none. */
  lemma {:induction false} PlaceUnique<V>(sp: Spec<V>, hs: seq<Node<V>>, placed: set<Key>, i: int, n: Node<V>, hs2: seq<Node<V>>)
    requires Unique(sp, hs, placed) && 0 <= i < |hs| && hs[i].value.None? && n.value.Some?
    requires n.key !in placed && n.key in sp.source && !sp.InArray(n.key)
    requires forall j :: 0 <= j < |hs| && hs[j].value.Some? ==> hs[j].key in placed
    requires |hs2| == |hs| && hs2[i] == n
    requires forall j :: 0 <= j < |hs| && j != i ==> hs2[j].value == hs[j].value && hs2[j].key == hs[j].key
    ensures Unique(sp, hs2, placed + {n.key})
  {
    hide Spec.Main, FilledSlots;
    assert forall j, k :: Holds(hs2, j, k) <==> if j == i then k == n.key else Holds(hs, j, k);
    forall k | k in placed + {n.key} ensures SlotOfKey(hs2, k) {
      if k == n.key { assert Holds(hs2, i, k); }
      else {
        var j :| Holds(hs, j, k);
        assert Holds(hs2, j, k);
      }
    }
    OneMoreFilled(hs, hs2, i);
  }

  lemma OneMoreFilled<V>(hs: seq<Node<V>>, hs2: seq<Node<V>>, i: int)
    requires |hs2| == |hs| && 0 <= i < |hs| && hs[i].value.None? && hs2[i].value.Some?
    requires forall j :: 0 <= j < |hs| && j != i ==> hs2[j].value == hs[j].value
    ensures |FilledSlots(hs2)| == |FilledSlots(hs)| + 1
  {
    assert FilledSlots(hs2) == FilledSlots(hs) + {i};
  }

  /** fillnocolliding: a key takes its main position, if that is free. */
  lemma {:induction false} PlaceHead<V>(sp: Spec<V>, hs: seq<Node<V>>, chains: seq<seq<int>>, placed: set<Key>, k: Key)
    requires Filling(sp, hs, chains, placed) && |hs| > 0 && k !in placed && k in sp.source && !sp.InArray(k)
    requires hs[sp.Main(k)].value.None?
    ensures var i := sp.Main(k);
      Filling(sp, hs[i := Node(Some(sp.source[k]), k, -1, sp.hashOf(k), true)], chains[i := [i]], placed + {k})
  {
    hide Spec.Main;
    var i := sp.Main(k);
    var hs2, chains2 := hs[i := Node(Some(sp.source[k]), k, -1, sp.hashOf(k), true)], chains[i := [i]];
    forall j | 0 <= j < |hs| && hs[j].value.Some? ensures hs[j].key in placed { assert SlotOk(sp, hs, chains, placed, j); }
    PlaceUnique(sp, hs, placed, i, hs2[i], hs2);
    forall h | 0 <= h < |hs| ensures ChainOk(sp, hs2, chains2[h], h) {
      assert ChainOk(sp, hs, chains[h], h);
      if h == i {
        assert LinkOk(sp, hs2, [i], i, 0);
      } else {
        forall j | 0 <= j < |chains[h]| ensures LinkOk(sp, hs2, chains[h], h, j) { assert LinkOk(sp, hs, chains[h], h, j); }
      }
    }
    if chains[i] != [] { assert ChainOk(sp, hs, chains[i], i); HeadFilled(sp, hs, chains[i], i); }
    forall j | 0 <= j < |hs| ensures SlotOk(sp, hs2, chains2, placed + {k}, j) {
      assert SlotOk(sp, hs, chains, placed, j);
    }
  }

  /** fillcolliding: a key takes a free slot and is linked in behind its main position. */
  lemma {:induction false} PlaceBehind<V>(sp: Spec<V>, hs: seq<Node<V>>, chains: seq<seq<int>>, placed: set<Key>, k: Key, n: int)
    requires Filling(sp, hs, chains, placed) && |hs| > 0 && k !in placed && k in sp.source && !sp.InArray(k)
    requires 0 <= n < |hs| && hs[n].value.None? && chains[sp.Main(k)] != []
    ensures var m := sp.Main(k);
      && n != m && hs[m].value.Some?
      && Filling(sp, hs[n := Node(Some(sp.source[k]), k, hs[m].next, sp.hashOf(k), false)][m := hs[m].(next := n, nocolliding := false)],
                 chains[m := [m, n] + chains[m][1..]], placed + {k})
  {
    hide Spec.Main;
    var m := sp.Main(k);
    var c := chains[m];
    assert ChainOk(sp, hs, c, m);
    HeadFilled(sp, hs, c, m);
    var x := Node(Some(sp.source[k]), k, hs[m].next, sp.hashOf(k), false);
    var hs2, c2 := hs[n := x][m := hs[m].(next := n, nocolliding := false)], [m, n] + c[1..];
    var chains2 := chains[m := c2];
    forall j | 0 <= j < |hs| && hs[j].value.Some? ensures hs[j].key in placed { assert SlotOk(sp, hs, chains, placed, j); }
    PlaceUnique(sp, hs, placed, n, x, hs2);
    LongerChain(sp, hs, c, m, n, x, hs2);
    forall h | 0 <= h < |hs| ensures ChainOk(sp, hs2, chains2[h], h) {
      assert ChainOk(sp, hs, chains[h], h);
      if h != m { OtherChain(sp, hs, chains[h], h, n, m, hs2); }
    }
    forall j | 0 <= j < |hs| ensures SlotOk(sp, hs2, chains2, placed + {k}, j) {
      assert SlotOk(sp, hs, chains, placed, j);
      assert forall y :: y in c ==> y in c2;
    }
  }

  lemma {:induction false} LongerChain<V>(sp: Spec<V>, hs: seq<Node<V>>, c: seq<int>, m: int, n: int, x: Node<V>, hs2: seq<Node<V>>)
    requires ChainOk(sp, hs, c, m) && c != [] && 0 <= n < |hs| && 0 <= m < |hs| && n != m && hs[n].value.None?
    requires x.value.Some? && x.next == hs[m].next && sp.Main(x.key) == m
    requires hs2 == hs[n := x][m := hs[m].(next := n, nocolliding := false)]
    ensures ChainOk(sp, hs2, [m, n] + c[1..], m)
  {
    hide Spec.Main;
    var c2 := [m, n] + c[1..];
    forall j | 0 <= j < |c| ensures c[j] != n { assert LinkOk(sp, hs, c, m, j); }
    SecondIn(c, m, n);
    assert LinkOk(sp, hs, c, m, 0);
    forall j | 0 <= j < |c2| ensures LinkOk(sp, hs2, c2, m, j) {
      if j >= 2 {
        assert LinkOk(sp, hs, c, m, j - 1);
        assert c2[j] == c[j - 1] && c2[0] == c[0] && c2[0] != c2[j];
      } else if j == 1 && |c| > 1 {
        assert c2[2] == c[1];
      }
    }
  }

  /** A chain that is not empty has its main position filled. */
  lemma HeadFilled<V>(sp: Spec<V>, hs: seq<Node<V>>, c: seq<int>, h: int)
    requires ChainOk(sp, hs, c, h) && c != []
    ensures 0 <= h < |hs| && hs[h].value.Some? && sp.Main(hs[h].key) == h
  {
    assert LinkOk(sp, hs, c, h, 0);
  }

  /** A new second element keeps a chain free of repetitions. */
  lemma SecondIn(c: seq<int>, m: int, n: int)
    requires Distinct(c) && c != [] && c[0] == m && n != m && n !in c
    ensures Distinct([m, n] + c[1..])
  {
    var c2 := [m, n] + c[1..];
    forall i, j | 0 <= i < j < |c2| ensures c2[i] != c2[j] {
      assert j >= 2 ==> c2[j] == c[j - 1] && c[j - 1] in c;
      assert i >= 2 ==> c2[i] == c[i - 1];
    }
  }

  lemma {:induction false} OtherChain<V>(sp: Spec<V>, hs: seq<Node<V>>, c: seq<int>, h: int, n: int, m: int, hs2: seq<Node<V>>)
    requires ChainOk(sp, hs, c, h) && h != m && 0 <= n < |hs| && hs[n].value.None? && 0 <= m < |hs| && n != m
    requires sp.Main(hs[m].key) == m && |hs2| == |hs|
    requires forall j :: 0 <= j < |hs| && j != n && j != m ==> hs2[j] == hs[j]
    ensures ChainOk(sp, hs2, c, h)
  {
    hide Spec.Main;
    forall j | 0 <= j < |c| ensures LinkOk(sp, hs2, c, h, j) { assert LinkOk(sp, hs, c, h, j); }
  }

  // ---------------------------------------------------------------- finding keys

  /** The table is complete: every key of the hash part has a slot, and every slot a key. */
  ghost predicate Complete<V>(sp: Spec<V>, hs: seq<Node<V>>, chains: seq<seq<int>>) {
    Filling(sp, hs, chains, sp.HashKeys()) && |sp.HashKeys()| == sp.size
  }

  lemma AllFilled<V>(sp: Spec<V>, hs: seq<Node<V>>, chains: seq<seq<int>>, i: int)
    requires Complete(sp, hs, chains) && 0 <= i < |hs|
    ensures hs[i].value.Some? && hs[i].key in sp.source && !sp.InArray(hs[i].key) && hs[i].value == Some(sp.source[hs[i].key])
  {
    SubsetSize(FilledSlots(hs), Slots(|hs|));
    assert i in Slots(|hs|);
    assert SlotOk(sp, hs, chains, sp.HashKeys(), i);
  }

  /** Where a slot is in its chain. */
  lemma InChain<V>(sp: Spec<V>, hs: seq<Node<V>>, chains: seq<seq<int>>, i: int) returns (h: int, j: int)
    requires Complete(sp, hs, chains) && 0 <= i < |hs|
    ensures 0 <= h < |hs| && 0 <= j < |chains[h]| && chains[h][j] == i
  {
    AllFilled(sp, hs, chains, i);
    assert SlotOk(sp, hs, chains, sp.HashKeys(), i);
    h := sp.Main(hs[i].key);
    j :| 0 <= j < |chains[h]| && chains[h][j] == i;
  }

  /** A key that is there is in the chain of its main position, which is that slot's own. */
  lemma InOwnChain<V>(sp: Spec<V>, hs: seq<Node<V>>, chains: seq<seq<int>>, i: int, k: Key)
    requires Complete(sp, hs, chains) && Holds(hs, i, k)
    ensures var c := chains[sp.Main(k)]; i in c && c[0] == sp.Main(k)
    ensures hs[sp.Main(k)].nocolliding ==> i == sp.Main(k)
  {
    assert SlotOk(sp, hs, chains, sp.HashKeys(), i);
    var m := sp.Main(k);
    assert ChainOk(sp, hs, chains[m], m);
    HeadFilled(sp, hs, chains[m], m);
    assert SlotOk(sp, hs, chains, sp.HashKeys(), m);
  }

  /** Every key of the hash part has its main position filled by a key of that position. */
  ghost predicate Headed<V>(sp: Spec<V>, chains: seq<seq<int>>, ks: set<Key>) {
    |chains| == sp.size && forall k :: k in ks && !sp.InArray(k) ==> sp.Main(k) < sp.size && chains[sp.Main(k)] != []
  }

  function Prefix(order: seq<Key>, i: nat): set<Key>
    requires i <= |order|
  {
    set k | k in order[..i]
  }

  lemma PrefixStep(order: seq<Key>, i: nat)
    requires i < |order| && Distinct(order)
    ensures Prefix(order, i + 1) == Prefix(order, i) + {order[i]} && order[i] !in Prefix(order, i)
  {
    assert order[..i + 1] == order[..i] + [order[i]];
  }

  lemma PrefixAll<V>(order: seq<Key>, m: map<Key, V>)
    requires Visits(order, m)
    ensures Prefix(order, |order|) == m.Keys && Prefix(order, 0) == {}
  {
    assert order[..|order|] == order;
  }

  /** countsize: the keys outside the array part. */
  method CountSize<V>(ghost source: map<Key, V>, order: seq<Key>, sizearray: nat) returns (n: nat)
    requires Visits(order, source)
    ensures n == |(set k | k in source && !(k.Int? && 0 < k.i <= sizearray))|
  {
    n := 0;
    ghost var counted: set<Key> := {};
    PrefixAll(order, source);
    for i := 0 to |order|
      invariant counted == set k | k in Prefix(order, i) && !(k.Int? && 0 < k.i <= sizearray)
      invariant n == |counted|
    {
      PrefixStep(order, i);
      if !(order[i].Int? && 0 < order[i].i <= sizearray) {
        n := n + 1;
        counted := counted + {order[i]};
      }
    }
  }

  class Table<V(0)> {
    const sp: Spec<V>
    const arr: array<Option<V>>
    const hash: array<Node<V>>
    ghost var chains: seq<seq<int>>   // by main position
    ghost var placed: set<Key>        // the keys that have a slot

    ghost predicate Shape()
      reads this, hash
    {
      && arr.Length == sp.sizearray && hash.Length == sp.size && arr as object != hash as object
      && Filling(sp, hash[..], chains, placed)
    }

    /** The array part holds what the source has for the keys `ks`. */
    ghost predicate ArrayHolds(ks: set<Key>)
      reads this, arr
    {
      && arr.Length == sp.sizearray
      && forall i :: 0 <= i < arr.Length ==> arr[i] == if Int(i + 1) in ks && Int(i + 1) in sp.source then Some(sp.source[Int(i + 1)]) else None
    }

    ghost predicate Valid()
      reads this, arr, hash
    {
      Shape() && Complete(sp, hash[..], chains) && ArrayHolds(sp.source.Keys)
    }

    /** convtable: both passes go through the source table in an order that lua_next chooses. */
    constructor (source: map<Key, V>, sizearray: nat, hashOf: Key -> nat, order: seq<Key>, order2: seq<Key>)
      requires Visits(order, source) && Visits(order2, source)
      ensures Valid() && sp.source == source && sp.sizearray == sizearray && fresh(arr) && fresh(hash)
    {
      var n := CountSize(source, order, sizearray);
      sp := Spec(source, sizearray, n, hashOf);
      arr := new Option<V>[sizearray](_ => None);
      hash := new Node<V>[n](_ => Node(None, Int(0), -1, 0, false));
      chains := seq(n, _ => []);
      placed := {};
      new;
      StartsEmpty();
      assert sp.HashKeys() == set k | k in source && !(k.Int? && 0 < k.i <= sizearray);
      FillNoColliding(order);
      FillColliding(order2);
    }

    lemma StartsEmpty()
      requires arr.Length == sp.sizearray && hash.Length == sp.size == |chains| && placed == {}
      requires forall i :: 0 <= i < sp.size ==> hash[i].value.None? && chains[i] == []
      requires forall i :: 0 <= i < arr.Length ==> arr[i].None?
      requires arr as object != hash as object
      ensures Shape() && ArrayHolds({})
    {
      assert FilledSlots(hash[..]) == {};
    }

    /** Every key placed so far is at its main position. */
    ghost predicate Own()
      requires Shape()
      reads this, hash
    {
      forall k :: k in placed ==> sp.Main(k) < sp.size && Holds(hash[..], sp.Main(k), k)
    }

    /** In the first pass a filled slot is the start of a chain. */
    lemma OwnHead(i: int)
      requires Shape() && Own() && 0 <= i < hash.Length && hash[i].value.Some?
      ensures chains[i] != []
    {
      hide Spec.Main;
      var hs := hash[..];
      assert SlotOk(sp, hs, chains, placed, i);
      var k := hs[i].key;
      assert Holds(hs, i, k) && Holds(hs, sp.Main(k), k);
    }

    /** One key of fillnocolliding. */
    method TakeMain(k: Key)
      requires Shape() && Own() && k in sp.source && !sp.InArray(k) && k !in placed && sp.size > 0
      modifies this`chains, this`placed, hash
      ensures Shape() && Own() && old(placed) <= placed <= old(placed) + {k}
      ensures chains[sp.Main(k)] != [] && forall h :: 0 <= h < hash.Length && old(chains)[h] != [] ==> chains[h] != []
    {
      hide Filling, Unique;
      var m := sp.Main(k);
      SizeOf();
      if hash[m].value.None? {
        PlaceHead(sp, hash[..], chains, placed, k);
        ghost var hs := hash[..];
        hash[m] := Node(Some(sp.source[k]), k, -1, sp.hashOf(k), true);
        assert hash[..] == hs[m := Node(Some(sp.source[k]), k, -1, sp.hashOf(k), true)];
        chains := chains[m := [m]];
        placed := placed + {k};
      } else {
        OwnHead(m);
      }
    }

    lemma SizeOf()
      requires Shape()
      ensures |chains| == hash.Length == sp.size
    {
    }

    /** fillnocolliding: the array part, and for each main position its first key. */
    method FillNoColliding(order: seq<Key>)
      requires Shape() && ArrayHolds({}) && placed == {} && Visits(order, sp.source) && |sp.HashKeys()| == sp.size
      modifies this`chains, this`placed, arr, hash
      ensures Shape() && Own() && ArrayHolds(sp.source.Keys) && Headed(sp, chains, sp.source.Keys)
    {
      hide Filling, Unique, Spec.Main;
      PrefixAll(order, sp.source);
      SizeOf();
      var i := 0;
      while i < |order|
        invariant 0 <= i <= |order|
        invariant Shape() && Own() && ArrayHolds(Prefix(order, i)) && placed <= Prefix(order, i)
        invariant Headed(sp, chains, Prefix(order, i))
      {
        FillOne(order, i);
        i := i + 1;
      }
    }

    method FillOne(order: seq<Key>, i: nat)
      requires i < |order| && Visits(order, sp.source) && |sp.HashKeys()| == sp.size
      requires Shape() && Own() && ArrayHolds(Prefix(order, i)) && placed <= Prefix(order, i) && Headed(sp, chains, Prefix(order, i))
      modifies this`chains, this`placed, arr, hash
      ensures Shape() && Own() && ArrayHolds(Prefix(order, i + 1)) && placed <= Prefix(order, i + 1) && Headed(sp, chains, Prefix(order, i + 1))
    {
      hide Filling, Unique, Spec.Main, Prefix;
      var k := order[i];
      PrefixStep(order, i);
      if k.Int? && 0 < k.i <= sp.sizearray {
        arr[k.i - 1] := Some(sp.source[k]);
      } else {
        assert k in sp.HashKeys();
        TakeMain(k);
        SizeOf();
      }
    }

    /** A key that is not at its main position in the second pass has no slot yet, but there is one free. */
    lemma Colliding(done: set<Key>, k: Key) returns (n: int)
      requires Shape() && Headed(sp, chains, sp.source.Keys) && |sp.HashKeys()| == sp.size
      requires forall x :: x in placed ==> x in done || Holds(hash[..], sp.Main(x), x)
      requires k in sp.source && !sp.InArray(k) && k !in done && hash[sp.Main(k)].key != k
      ensures k !in placed && chains[sp.Main(k)] != []
      ensures 0 <= n < hash.Length && hash[n].value.None?
    {
      hide Spec.Main;
      assert placed <= sp.HashKeys() - {k};
      SubsetSize(placed, sp.HashKeys() - {k});
      n := FreeSlot(FilledSlots(hash[..]), sp.size);
    }

    /** One key of fillcolliding. The assertion of the source holds: a free slot is found. */
    method TakeFree(k: Key, ghost done: set<Key>)
      requires Shape() && Headed(sp, chains, sp.source.Keys) && |sp.HashKeys()| == sp.size
      requires forall x :: x in placed ==> x in done || Holds(hash[..], sp.Main(x), x)
      requires k in sp.source && !sp.InArray(k) && k !in done
      modifies this`chains, this`placed, hash
      ensures Shape() && Headed(sp, chains, sp.source.Keys) && old(placed) <= placed && k in placed
      ensures forall x :: x in placed ==> x in done + {k} || Holds(hash[..], sp.Main(x), x)
    {
      hide Filling, Unique, Spec.Main;
      SizeOf();
      var m := sp.Main(k);
      HeadAt(m);
      if hash[m].key == k {
        HeadPlaced(m);
        return;
      }
      ghost var w := Colliding(done, k);
      var i := 0;
      while i < hash.Length && hash[i].value.Some?
        invariant 0 <= i <= w
      {
        i := i + 1;
      }
      assert i < hash.Length;
      PlaceBehind(sp, hash[..], chains, placed, k, i);
      ghost var hs := hash[..];
      hash[i] := Node(Some(sp.source[k]), k, hash[m].next, sp.hashOf(k), false);
      hash[m] := hash[m].(next := i, nocolliding := false);
      assert hash[..] == hs[i := Node(Some(sp.source[k]), k, hs[m].next, sp.hashOf(k), false)][m := hs[m].(next := i, nocolliding := false)];
      chains := chains[m := [m, i] + chains[m][1..]];
      placed := placed + {k};
      forall x | x in placed ensures x in done + {k} || Holds(hash[..], sp.Main(x), x) {
        if x != k && x !in done { assert Holds(hs, sp.Main(x), x); }
      }
    }

    lemma HeadAt(m: int)
      requires Shape() && 0 <= m < |chains| && chains[m] != []
      ensures hash[m].value.Some?
    {
      hide Spec.Main;
      assert ChainOk(sp, hash[..], chains[m], m);
      HeadFilled(sp, hash[..], chains[m], m);
    }

    lemma HeadPlaced(m: int)
      requires Shape() && 0 <= m < |chains| && hash[m].value.Some?
      ensures hash[m].key in placed
    {
      assert SlotOk(sp, hash[..], chains, placed, m);
    }

    /** fillcolliding: all other keys of the hash part. */
    method FillColliding(order: seq<Key>)
      requires Shape() && Own() && Headed(sp, chains, sp.source.Keys) && Visits(order, sp.source) && |sp.HashKeys()| == sp.size
      requires ArrayHolds(sp.source.Keys)
      modifies this`chains, this`placed, hash
      ensures Valid()
    {
      hide Filling, Unique, Spec.Main;
      PrefixAll(order, sp.source);
      var i := 0;
      while i < |order|
        invariant 0 <= i <= |order|
        invariant Shape() && Headed(sp, chains, sp.source.Keys) && ArrayHolds(sp.source.Keys)
        invariant forall x :: x in Prefix(order, i) && !sp.InArray(x) ==> x in placed
        invariant forall x :: x in placed ==> x in Prefix(order, i) || Holds(hash[..], sp.Main(x), x)
      {
        PrefixStep(order, i);
        if !(order[i].Int? && 0 < order[i].i <= sp.sizearray) { TakeFree(order[i], Prefix(order, i)); }
        i := i + 1;
      }
      PlacedAll();
    }

    lemma PlacedAll()
      requires Shape() && forall x :: x in sp.source && !sp.InArray(x) ==> x in placed
      ensures placed == sp.HashKeys()
    {
      hide Spec.Main;
    }

    /** Slot n is in the chain of h, and k, if it is in the table, is in the rest of it. */
    ghost predicate Searching(k: Key, n: int, h: int, j: int)
      requires Shape()
      reads this, hash
    {
      && 0 <= h < |chains| && 0 <= j < |chains[h]| && chains[h][j] == n && 0 <= n < hash.Length
      && forall i :: Holds(hash[..], i, k) ==> exists l :: j <= l < |chains[h]| && chains[h][l] == i
    }

    lemma SearchStart(k: Key) returns (h: int, j: int)
      requires Valid() && sp.size > 0
      ensures Searching(k, sp.Main(k), h, j)
      ensures hash[sp.Main(k)].nocolliding ==> forall i :: Holds(hash[..], i, k) ==> i == sp.Main(k)
    {
      hide Spec.Main;
      var hs, m := hash[..], sp.Main(k);
      h, j := InChain(sp, hs, chains, m);
      if i :| Holds(hs, i, k) {
        InOwnChain(sp, hs, chains, i, k);
        j, h := 0, m;
        assert chains[h][j] == m;
        forall x | Holds(hs, x, k) ensures exists l :: 0 <= l < |chains[h]| && chains[h][l] == x { assert x == i; }
      }
    }

    lemma SearchNext(k: Key, n: int, h: int, j: int)
      requires Valid() && Searching(k, n, h, j) && !Holds(hash[..], n, k)
      ensures hash[n].next < 0 ==> forall i :: !Holds(hash[..], i, k)
      ensures hash[n].next >= 0 ==> j + 1 < |chains[h]| && Searching(k, hash[n].next, h, j + 1)
    {
      hide Spec.Main;
      assert ChainOk(sp, hash[..], chains[h], h);
      assert LinkOk(sp, hash[..], chains[h], h, j);
      if j + 1 < |chains[h]| { assert LinkOk(sp, hash[..], chains[h], h, j + 1); }
      forall i | Holds(hash[..], i, k) ensures exists l :: j + 1 <= l < |chains[h]| && chains[h][l] == i {
        var l :| j <= l < |chains[h]| && chains[h][l] == i;
        assert l != j;
      }
    }

    /** A key of the hash part, and no other, has a slot. */
    lemma KeyHasSlot(k: Key)
      requires Valid()
      ensures (exists i :: Holds(hash[..], i, k)) <==> k in sp.source && !sp.InArray(k)
    {
      hide Spec.Main;
      if i :| Holds(hash[..], i, k) { AllFilled(sp, hash[..], chains, i); }
      if k in sp.source && !sp.InArray(k) {
        assert k in sp.HashKeys();
        assert SlotOfKey(hash[..], k);
      }
    }

    /** lookup_key: the slot of a key of the hash part, or nothing, wherever the search begins. */
    method LookupKey(k: Key) returns (n: int)
      requires Valid()
      ensures n >= 0 <==> k in sp.source && !sp.InArray(k)
      ensures n >= 0 ==> Holds(hash[..], n, k) && hash[n].value == Some(sp.source[k])
    {
      hide Spec.Main, Complete, Filling;
      KeyHasSlot(k);
      SizeOf();
      if hash.Length == 0 { return -1; }
      var keyhash := sp.hashOf(k);
      n := sp.Main(k);
      ghost var h, j := SearchStart(k);
      SlotFacts(n);
      if keyhash != hash[n].keyhash && hash[n].nocolliding { return -1; }
      while true
        invariant Searching(k, n, h, j)
        decreases |chains[h]| - j
      {
        SlotFacts(n);
        if keyhash == hash[n].keyhash && hash[n].key == k { return; }
        SearchNext(k, n, h, j);
        if hash[n].next < 0 { return -1; }
        n, j := hash[n].next, j + 1;
      }
    }

    lemma SlotFacts(n: int)
      requires Valid() && 0 <= n < hash.Length
      ensures hash[n].value.Some? && hash[n].keyhash == sp.hashOf(hash[n].key) && Holds(hash[..], n, hash[n].key)
      ensures hash[n].key in sp.source && hash[n].value == Some(sp.source[hash[n].key])
    {
      hide Spec.Main;
      AllFilled(sp, hash[..], chains, n);
      assert SlotOk(sp, hash[..], chains, placed, n);
    }

    /** lindexconf: the value that the source table has for the key, if any. */
    method Index(k: Key) returns (r: Option<V>)
      requires Valid()
      ensures r == if k in sp.source then Some(sp.source[k]) else None
    {
      hide Complete, Filling;
      if k.Int? && 0 < k.i <= sp.sizearray {
        r := arr[k.i - 1];
      } else {
        var n := LookupKey(k);
        r := if n >= 0 then hash[n].value else None;
      }
    }

    // -------------------------------------------------------------- iteration

    /** All keys: those of the array part, then those of the slots. */
    ghost function Order(): seq<Key>
      reads arr, hash
    {
      ArrayKeys(arr[..], 0) + SlotKeys(hash[..])
    }

    /** Iteration goes through each key of the source table once. */
    lemma OrderVisits()
      requires Valid()
      ensures Visits(Order(), sp.source)
    {
      hide Spec.Main, Complete, Filling;
      SizeOf();
      ArrayKeysOf(arr[..], 0);
      forall i | 0 <= i < hash.Length ensures hash[i].key in sp.source && !sp.InArray(hash[i].key) && Holds(hash[..], i, hash[i].key) {
        SlotFacts(i);
        KeyHasSlot(hash[i].key);
      }
      OnlyOnce();
      var a, b := ArrayKeys(arr[..], 0), SlotKeys(hash[..]);
      forall k | k in sp.source ensures k in a + b {
        if sp.InArray(k) { assert arr[..][k.i - 1].Some?; }
        else { KeyHasSlot(k); var i :| Holds(hash[..], i, k); assert b[i] == k; }
      }
      forall k | k in a + b ensures k in sp.source {
        if k in a { assert arr[..][k.i - 1].Some?; }
      }
      forall i, j | 0 <= i < j < |a + b| ensures (a + b)[i] != (a + b)[j] {
        if i < |a| <= j { assert a[i] in a && sp.InArray(a[i]); }
      }
    }

    lemma OnlyOnce()
      requires Valid()
      ensures forall i, j, k :: Holds(hash[..], i, k) && Holds(hash[..], j, k) ==> i == j
    {
    }

    /** The first key of the array part from the i-th on, or else of the hash part. */
    method FirstFrom(i0: nat) returns (r: Option<Key>)
      requires Valid() && i0 <= sp.sizearray
      ensures r == First(ArrayKeys(arr[..], i0) + SlotKeys(hash[..]))
    {
      hide Spec.Main, Complete, Filling;
      var i := i0;
      while i < arr.Length
        invariant i0 <= i <= arr.Length
        invariant ArrayKeys(arr[..], i0) == ArrayKeys(arr[..], i)
      {
        if arr[i].Some? { return Some(Int(i + 1)); }
        i := i + 1;
      }
      r := if hash.Length > 0 then Some(hash[0].key) else None;
    }

    /** lnextkey, for nothing or for a key of the table. */
    method NextKey(k: Option<Key>) returns (r: Option<Key>)
      requires Valid()
      ensures k.None? ==> r == First(Order())
      ensures k.Some? && k.value in sp.source ==> exists i :: 0 <= i < |Order()| && Order()[i] == k.value && r == First(Order()[i + 1..])
      ensures k.Some? && k.value !in sp.source && !sp.InArray(k.value) ==> r == None
    {
      hide Spec.Main, Complete, Filling;
      if k.None? {
        r := FirstFrom(0);
      } else if k.value.Int? && 0 < k.value.i <= sp.sizearray {
        r := FirstFrom(k.value.i);
        if k.value in sp.source {
          ghost var i := ArrayKeyAt(arr[..], SlotKeys(hash[..]), k.value.i);
          assert Order()[i] == k.value;
        }
      } else {
        var n := LookupKey(k.value);
        if n < 0 { return None; }
        r := if n + 1 == hash.Length then None else Some(hash[n + 1].key);
        SlotKeyAt(ArrayKeys(arr[..], 0), hash[..], n);
        assert Order()[|ArrayKeys(arr[..], 0)| + n] == k.value;
      }
    }
  }

  function First<T>(s: seq<T>): Option<T> { if s == [] then None else Some(s[0]) }

  /** The keys of the array part from the i-th entry on. */
  function ArrayKeys<V>(a: seq<Option<V>>, i: nat): seq<Key>
    decreases |a| - i
  {
    if i >= |a| then [] else (if a[i].Some? then [Int(i + 1)] else []) + ArrayKeys(a, i + 1)
  }

  function SlotKeys<V>(hs: seq<Node<V>>): (r: seq<Key>)
    ensures |r| == |hs| && forall i :: 0 <= i < |hs| ==> r[i] == hs[i].key
  {
    seq(|hs|, i requires 0 <= i < |hs| => hs[i].key)
  }

  lemma {:induction false} ArrayKeysOf<V>(a: seq<Option<V>>, i: nat)
    ensures Distinct(ArrayKeys(a, i))
    ensures forall k :: k in ArrayKeys(a, i) <==> k.Int? && i < k.i <= |a| && a[k.i - 1].Some?
    decreases |a| - i
  {
    if i < |a| {
      ArrayKeysOf(a, i + 1);
      var r := ArrayKeys(a, i + 1);
      assert Int(i + 1) !in r;
      if a[i].Some? { assert ArrayKeys(a, i) == [Int(i + 1)] + r; } else { assert ArrayKeys(a, i) == r; }
    }
  }

  /** Where an entry of the array part is among all keys. */
  lemma {:induction false} ArrayKeyAt<V>(a: seq<Option<V>>, rest: seq<Key>, n: nat) returns (i: nat)
    requires 0 < n <= |a| && a[n - 1].Some?
    ensures var all := ArrayKeys(a, 0) + rest; i < |all| && all[i] == Int(n) && First(all[i + 1..]) == First(ArrayKeys(a, n) + rest)
  {
    i := EntryAt(a, 0, n);
    var all := ArrayKeys(a, 0) + rest;
    assert all[i + 1..] == ArrayKeys(a, 0)[i + 1..] + rest;
  }

  lemma {:induction false} EntryAt<V>(a: seq<Option<V>>, from: nat, n: nat) returns (i: nat)
    requires from < n <= |a| && a[n - 1].Some?
    ensures i < |ArrayKeys(a, from)| && ArrayKeys(a, from)[i] == Int(n) && ArrayKeys(a, from)[i + 1..] == ArrayKeys(a, n)
    decreases n - from
  {
    hide ArrayKeys;
    ArrayStep(a, from);
    if from + 1 == n {
      i := 0;
    } else {
      var j := EntryAt(a, from + 1, n);
      i := if a[from].Some? then j + 1 else j;
      ConsTail(Int(from + 1), ArrayKeys(a, from + 1), j);
    }
  }

  lemma ConsTail(k: Key, l: seq<Key>, j: nat)
    requires j < |l|
    ensures ([k] + l)[j + 1] == l[j] && ([k] + l)[j + 2..] == l[j + 1..]
  {
  }

  lemma ArrayStep<V>(a: seq<Option<V>>, from: nat)
    requires from < |a|
    ensures ArrayKeys(a, from) == if a[from].Some? then [Int(from + 1)] + ArrayKeys(a, from + 1) else ArrayKeys(a, from + 1)
  {
  }

  lemma SlotKeyAt<V>(front: seq<Key>, hs: seq<Node<V>>, n: nat)
    requires n < |hs|
    ensures var all := front + SlotKeys(hs);
      && |front| + n < |all| && all[|front| + n] == hs[n].key
      && First(all[|front| + n + 1..]) == if n + 1 == |hs| then None else Some(hs[n + 1].key)
  {
  }
}
