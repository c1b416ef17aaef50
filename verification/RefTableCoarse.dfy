/**
 * The reference-counted object table under one lock. Each operation runs with
 * the lock held from start to end, so it acts on the table atomically; the class
 * below walks the bucket lists as the program does and is proved against the
 * four table functions.
 */
module RefTableCoarse {

  const NHASH: nat := 29

  /** HASH(id): the id converted to unsigned long, modulo the number of buckets. */
  function Bucket(id: int): (b: nat)
    ensures b < NHASH
  {
    id % 0x1_0000_0000_0000_0000 % NHASH
  }

  datatype Foo = Foo(count: int, id: int, next: nat)

  // ----- the table as lists of addresses, 0 being the null pointer

  function At(c: seq<nat>, i: nat): nat {
    if i < |c| then c[i] else 0
  }

  ghost predicate NoDup(c: seq<nat>) {
    forall i, j :: 0 <= i < j < |c| ==> c[i] != c[j]
  }

  ghost predicate LinkAt(heap: map<nat, Foo>, c: seq<nat>, b: nat, i: nat) {
    i < |c| && c[i] != 0 && c[i] in heap && heap[c[i]].next == At(c, i + 1) && Bucket(heap[c[i]].id) == b
  }

  /** Following f_next from fh[b] visits exactly c, whose objects all belong in bucket b. */
  ghost predicate Linked(fh: seq<nat>, heap: map<nat, Foo>, c: seq<nat>, b: nat) {
    && b < |fh| && fh[b] == At(c, 0) && NoDup(c)
    && (forall i: nat :: i < |c| ==> LinkAt(heap, c, b, i))
  }

  ghost predicate Bucketed(fh: seq<nat>, heap: map<nat, Foo>, lists: seq<seq<nat>>) {
    && |fh| == NHASH == |lists|
    && (forall b :: 0 <= b < NHASH ==> Linked(fh, heap, lists[b], b))
  }

  function Without(c: seq<nat>, i: nat): (r: seq<nat>)
    ensures i < |c| ==> |r| == |c| - 1
    ensures i < |c| ==> forall j :: 0 <= j < |r| ==> r[j] == if j < i then c[j] else c[j + 1]
  {
    if i < |c| then c[..i] + c[i + 1..] else c
  }

  function IndexOf(c: seq<nat>, o: nat): (i: nat)
    ensures i <= |c| && forall j :: 0 <= j < i ==> c[j] != o
    ensures i < |c| ==> c[i] == o
    ensures o in c ==> i < |c|
  {
    if c == [] || c[0] == o then 0 else 1 + IndexOf(c[1..], o)
  }

  // ----- the four operations

  datatype Entry = Entry(id: int, count: int)
  datatype Table = Table(lists: seq<seq<nat>>, objs: map<nat, Entry>)

  function ListOf(t: Table, id: int): seq<nat> {
    if Bucket(id) < |t.lists| then t.lists[Bucket(id)] else []
  }

  function IdOf(t: Table, o: nat): int {
    if o in t.objs then t.objs[o].id else 0
  }

  function Alloc(t: Table, o: nat, id: int): Table {
    if Bucket(id) < |t.lists| then
      Table(t.lists[Bucket(id) := [o] + t.lists[Bucket(id)]], t.objs[o := Entry(id, 1)])
    else t
  }

  function Hold(t: Table, o: nat): Table {
    if o in t.objs then t.(objs := t.objs[o := t.objs[o].(count := t.objs[o].count + 1)]) else t
  }

  /** The first object from position i on whose id matches, or null. */
  function Match(t: Table, c: seq<nat>, id: int, i: nat): (o: nat)
    ensures o == 0 || o in c
    decreases |c| - i
  {
    if i >= |c| then 0 else if IdOf(t, c[i]) == id then c[i] else Match(t, c, id, i + 1)
  }

  function Found(t: Table, id: int): nat {
    Match(t, ListOf(t, id), id, 0)
  }

  function Find(t: Table, id: int): Table {
    if Found(t, id) == 0 then t else Hold(t, Found(t, id))
  }

  function Rele(t: Table, o: nat): Table {
    if o !in t.objs then t
    else if t.objs[o].count == 1 then
      var b := Bucket(t.objs[o].id);
      if b < |t.lists| then Table(t.lists[b := Without(t.lists[b], IndexOf(t.lists[b], o))], t.objs - {o}) else t
    else t.(objs := t.objs[o := t.objs[o].(count := t.objs[o].count - 1)])
  }

  datatype Op = OpAlloc(o: nat, id: int) | OpHold(o: nat) | OpFind(id: int) | OpRele(o: nat)

  function Apply(t: Table, op: Op): Table {
    match op
    case OpAlloc(o, id) => Alloc(t, o, id)
    case OpHold(o) => Hold(t, o)
    case OpFind(id) => Find(t, id)
    case OpRele(o) => Rele(t, o)
  }

  /** The pointer an operation returns; 0 for those that return nothing. */
  function Result(t: Table, op: Op): nat {
    match op
    case OpAlloc(o, _) => o
    case OpFind(id) => Found(t, id)
    case _ => 0
  }

  function Replay(t: Table, ops: seq<Op>): Table {
    if ops == [] then t else Apply(Replay(t, ops[..|ops| - 1]), ops[|ops| - 1])
  }

  // ----- laws of the table

  /** Releasing undoes holding, and undoes a fresh allocation. */
  lemma {:induction false} ReleUndoes(t: Table, o: nat, id: int)
    ensures o in t.objs && t.objs[o].count >= 1 ==> Rele(Hold(t, o), o) == t
    ensures o !in t.objs && Bucket(id) < |t.lists| ==> Rele(Alloc(t, o, id), o) == t
  {
    if o in t.objs {
      if t.objs[o].count >= 1 {
        assert Rele(Hold(t, o), o).objs == t.objs;
      }
    } else if Bucket(id) < |t.lists| {
      var b := Bucket(id);
      var c := [o] + t.lists[b];
      assert IndexOf(c, o) == 0 && Without(c, 0) == t.lists[b];
      assert Rele(Alloc(t, o, id), o).objs == t.objs;
      assert Rele(Alloc(t, o, id), o).lists == t.lists;
    }
  }

  lemma {:induction false} MatchIs(t: Table, c: seq<nat>, id: int, i: nat)
    requires forall k :: 0 <= k < |c| ==> c[k] != 0
    ensures var o := Match(t, c, id, i);
      if o == 0 then forall k :: i <= k < |c| ==> IdOf(t, c[k]) != id
      else exists k :: i <= k < |c| && c[k] == o && IdOf(t, o) == id && forall j :: i <= j < k ==> IdOf(t, c[j]) != id
    decreases |c| - i
  {
    if i < |c| && IdOf(t, c[i]) != id {
      MatchIs(t, c, id, i + 1);
    }
  }

  // ----- list surgery shared with the fine-grained version

  lemma {:induction false} UnlinkHead(fh: seq<nat>, heap: map<nat, Foo>, c: seq<nat>, b: nat)
    requires Linked(fh, heap, c, b) && |c| > 0
    ensures LinkAt(heap, c, b, 0) && Linked(fh[b := heap[c[0]].next], heap, Without(c, 0), b)
  {
    var c' := Without(c, 0);
    assert LinkAt(heap, c, b, 0);
    forall i: nat | i < |c'| ensures LinkAt(heap, c', b, i) {
      assert LinkAt(heap, c, b, i + 1);
    }
  }

  lemma {:induction false} UnlinkAfter(fh: seq<nat>, heap: map<nat, Foo>, c: seq<nat>, b: nat, i: nat)
    requires Linked(fh, heap, c, b) && 0 < i < |c|
    ensures LinkAt(heap, c, b, i) && LinkAt(heap, c, b, i - 1)
    ensures Linked(fh, heap[c[i - 1] := heap[c[i - 1]].(next := heap[c[i]].next)], Without(c, i), b)
  {
    assert LinkAt(heap, c, b, i) && LinkAt(heap, c, b, i - 1);
    var heap' := heap[c[i - 1] := heap[c[i - 1]].(next := heap[c[i]].next)];
    var c' := Without(c, i);
    forall n: nat | n < |c'| ensures LinkAt(heap', c', b, n) {
      var k := if n < i then n else n + 1;
      assert LinkAt(heap, c, b, k);
      assert c[k] == c[i - 1] <==> k == i - 1;
    }
  }

  /** A change of one object outside a list, or of its count alone, does not disturb the list. */
  lemma LinkedFrame(fh: seq<nat>, fh': seq<nat>, heap: map<nat, Foo>, heap': map<nat, Foo>, c: seq<nat>, b: nat)
    requires Linked(fh, heap, c, b) && b < |fh'| && fh'[b] == fh[b]
    requires forall o :: o in c ==>
      o in heap && o in heap' && heap'[o].next == heap[o].next && heap'[o].id == heap[o].id
    ensures Linked(fh', heap', c, b)
  {
    forall i: nat | i < |c| ensures LinkAt(heap', c, b, i) {
      assert LinkAt(heap, c, b, i);
      assert c[i] in c;
    }
  }

  lemma InHeap(fh: seq<nat>, heap: map<nat, Foo>, c: seq<nat>, b: nat, o: nat)
    requires Linked(fh, heap, c, b) && o in c
    ensures o in heap && o != 0 && Bucket(heap[o].id) == b
  {
    var i: nat :| i < |c| && c[i] == o;
    assert LinkAt(heap, c, b, i);
  }

  lemma {:induction false} LinkFront(fh: seq<nat>, heap: map<nat, Foo>, c: seq<nat>, b: nat, o: nat)
    requires Linked(fh, heap, c, b) && o in heap && o != 0 && o !in c && heap[o].next == fh[b] &&
      Bucket(heap[o].id) == b
    ensures Linked(fh[b := o], heap, [o] + c, b)
  {
    var c' := [o] + c;
    forall i: nat | i < |c'| ensures LinkAt(heap, c', b, i) {
      assert i > 0 ==> LinkAt(heap, c, b, i - 1);
    }
  }

  /** The lists and the entries that a heap and bucket heads represent. */
  ghost predicate Shows(fh: seq<nat>, heap: map<nat, Foo>, t: Table) {
    && Bucketed(fh, heap, t.lists)
    && t.objs.Keys == heap.Keys
    && (forall o :: o in heap ==> t.objs[o] == Entry(heap[o].id, heap[o].count))
    && (forall o :: o in heap ==> o in t.lists[Bucket(heap[o].id)])
  }

  class CoarseTable {
    var fh: seq<nat>
    var heap: map<nat, Foo>
    ghost var t: Table

    ghost predicate Valid()
      reads this
    {
      Shows(fh, heap, t)
    }

    constructor ()
      ensures Valid() && t == Table(seq(NHASH, i => []), map[])
    {
      fh := seq(NHASH, i => 0);
      heap := map[];
      t := Table(seq(NHASH, i => []), map[]);
    }

    /** `o` is the address malloc returned. */
    method FooAlloc(o: nat, id: int)
      requires Valid() && o != 0 && o !in heap
      modifies this
      ensures Valid() && t == Alloc(old(t), o, id)
    {
      hide Linked;
      var idx := Bucket(id);
      AllocShows(fh, heap, t, o, id);
      heap := heap[o := Foo(1, id, fh[idx])];
      fh := fh[idx := o];
      t := Alloc(t, o, id);
    }

    method FooHold(o: nat)
      requires Valid() && o in heap
      modifies this
      ensures Valid() && t == Hold(old(t), o)
    {
      CountShows(fh, heap, t, o, 1);
      heap := heap[o := heap[o].(count := heap[o].count + 1)];
      t := Hold(t, o);
    }

    method FooFind(id: int) returns (o: nat)
      requires Valid()
      modifies this
      ensures Valid() && o == Found(old(t), id) && t == Find(old(t), id)
    {
      hide Linked, NoDup;
      ghost var c, i := t.lists[Bucket(id)], 0;
      HeadOf(fh, heap, t, Bucket(id));
      o := fh[Bucket(id)];
      while o != 0
        invariant heap == old(heap) && fh == old(fh) && t == old(t)
        invariant i <= |c| && o == At(c, i) && Match(t, c, id, i) == Match(t, c, id, 0)
        decreases |c| - i
      {
        NodeOf(fh, heap, t, Bucket(id), i);
        if heap[o].id == id {
          CountShows(fh, heap, t, o, 1);
          heap := heap[o := heap[o].(count := heap[o].count + 1)];
          t := Hold(t, o);
          return;
        }
        o := heap[o].next;
        i := i + 1;
      }
      if i < |c| {
        NodeOf(fh, heap, t, Bucket(id), i);
      }
    }

    method FooRele(o: nat)
      requires Valid() && o in heap
      modifies this
      ensures Valid() && t == Rele(old(t), o)
    {
      hide Linked, NoDup;
      if heap[o].count != 1 {
        CountShows(fh, heap, t, o, -1);
        heap := heap[o := heap[o].(count := heap[o].count - 1)];
        t := Rele(t, o);
        return;
      }
      var idx := Bucket(heap[o].id);
      ghost var c := t.lists[idx];
      ghost var k := IndexOf(c, o);
      HeadOf(fh, heap, t, idx);
      NodeOf(fh, heap, t, idx, k);
      var tfp := fh[idx];
      RemoveShows(fh, heap, t, o);
      if tfp == o {
        FrontIs(fh, heap, t, idx, o, k);
        fh := fh[idx := heap[o].next];
      } else {
        ghost var i := 0;
        NodeOf(fh, heap, t, idx, 0);
        while heap[tfp].next != o
          invariant heap == old(heap) && fh == old(fh) && t == old(t)
          invariant i < k && tfp == c[i] && tfp in heap && heap[tfp].next == c[i + 1]
          decreases k - i
        {
          tfp := heap[tfp].next;
          i := i + 1;
          NodeOf(fh, heap, t, idx, i);
          assert i != k;
        }
        SecondIs(fh, heap, t, idx, o, k, i);
        heap := heap[tfp := heap[tfp].(next := heap[o].next)];
      }
      heap := heap - {o};
      t := Rele(t, o);
    }
  }

  lemma HeadOf(fh: seq<nat>, heap: map<nat, Foo>, t: Table, b: nat)
    requires Shows(fh, heap, t) && b < NHASH
    ensures |t.lists| == NHASH == |fh| && fh[b] == At(t.lists[b], 0)
  {
    assert Linked(fh, heap, t.lists[b], b);
  }

  lemma NodeOf(fh: seq<nat>, heap: map<nat, Foo>, t: Table, b: nat, i: nat)
    requires Shows(fh, heap, t) && b < NHASH
    ensures |t.lists| == NHASH
    ensures i < |t.lists[b]| ==>
      var o := t.lists[b][i];
      o != 0 && o in heap && o in t.objs && t.objs[o].id == heap[o].id && heap[o].next == At(t.lists[b], i + 1)
  {
    assert Linked(fh, heap, t.lists[b], b);
    if i < |t.lists[b]| {
      assert LinkAt(heap, t.lists[b], b, i);
    }
  }

  lemma FrontIs(fh: seq<nat>, heap: map<nat, Foo>, t: Table, b: nat, o: nat, k: nat)
    requires Shows(fh, heap, t) && b < NHASH && o in heap && fh[b] == o && k == IndexOf(t.lists[b], o)
    ensures k == 0
  {
    assert Linked(fh, heap, t.lists[b], b);
    InHeapNonNull(fh, heap, t, o);
  }

  lemma InHeapNonNull(fh: seq<nat>, heap: map<nat, Foo>, t: Table, o: nat)
    requires Shows(fh, heap, t) && o in heap
    ensures o != 0
  {
    var b := Bucket(heap[o].id);
    assert Linked(fh, heap, t.lists[b], b);
    InHeap(fh, heap, t.lists[b], b, o);
  }

  lemma SecondIs(fh: seq<nat>, heap: map<nat, Foo>, t: Table, b: nat, o: nat, k: nat, i: nat)
    requires Shows(fh, heap, t) && b < NHASH && k == IndexOf(t.lists[b], o) && i < k < |t.lists[b]|
    requires t.lists[b][i + 1] == o
    ensures i + 1 == k
  {
  }

  lemma CountShows(fh: seq<nat>, heap: map<nat, Foo>, t: Table, o: nat, d: int)
    requires Shows(fh, heap, t) && o in heap
    ensures o in t.objs
    ensures Shows(fh, heap[o := heap[o].(count := heap[o].count + d)],
                  t.(objs := t.objs[o := t.objs[o].(count := t.objs[o].count + d)]))
  {
    var heap' := heap[o := heap[o].(count := heap[o].count + d)];
    forall b | 0 <= b < NHASH ensures Linked(fh, heap', t.lists[b], b) {
      ListInHeap(fh, heap, t, b);
      LinkedFrame(fh, fh, heap, heap', t.lists[b], b);
    }
  }

  lemma ListInHeap(fh: seq<nat>, heap: map<nat, Foo>, t: Table, b: nat)
    requires Shows(fh, heap, t) && b < NHASH
    ensures Linked(fh, heap, t.lists[b], b)
    ensures forall o :: o in t.lists[b] ==> o in heap && o != 0 && Bucket(heap[o].id) == b
  {
    assert Linked(fh, heap, t.lists[b], b);
    forall o | o in t.lists[b] ensures o in heap && o != 0 && Bucket(heap[o].id) == b {
      InHeap(fh, heap, t.lists[b], b, o);
    }
  }

  lemma AllocShows(fh: seq<nat>, heap: map<nat, Foo>, t: Table, o: nat, id: int)
    requires Shows(fh, heap, t) && o != 0 && o !in heap
    ensures |fh| == NHASH
    ensures Shows(fh[Bucket(id) := o], heap[o := Foo(1, id, fh[Bucket(id)])], Alloc(t, o, id))
  {
    var k := Bucket(id);
    var heap', fh', t' := heap[o := Foo(1, id, fh[k])], fh[k := o], Alloc(t, o, id);
    forall b | 0 <= b < NHASH ensures Linked(fh', heap', t'.lists[b], b) {
      ListInHeap(fh, heap, t, b);
      LinkedFrame(fh, fh, heap, heap', t.lists[b], b);
      if b == k {
        LinkFront(fh, heap', t.lists[b], b, o);
      } else {
        LinkedFrame(fh, fh', heap', heap', t.lists[b], b);
      }
    }
    hide Linked;
    forall x | x in heap' ensures x in t'.lists[Bucket(heap'[x].id)] {
      if x == o {
        assert t'.lists[k][0] == o;
      } else {
        assert x in t.lists[Bucket(heap[x].id)];
      }
    }
  }

  /** Whichever pointer is redirected, removing o leaves the table without it. */
  lemma {:induction false} RemoveShows(fh: seq<nat>, heap: map<nat, Foo>, t: Table, o: nat)
    requires Shows(fh, heap, t) && o in heap && heap[o].count == 1
    ensures var b := Bucket(heap[o].id);
      var c := t.lists[b];
      var k := IndexOf(c, o);
      && k < |c| && |fh| == NHASH
      && (k == 0 ==> Shows(fh[b := heap[o].next], heap - {o}, Rele(t, o)))
      && (k > 0 ==> c[k - 1] in heap)
      && (k > 0 ==> Shows(fh, heap[c[k - 1] := heap[c[k - 1]].(next := heap[o].next)] - {o}, Rele(t, o)))
  {
    var b := Bucket(heap[o].id);
    var c := t.lists[b];
    var k := IndexOf(c, o);
    assert Linked(fh, heap, c, b) && o in c;
    if k == 0 {
      UnlinkHead(fh, heap, c, b);
      RemovedShows(fh, heap, t, o, fh[b := heap[o].next], heap, k);
    } else {
      UnlinkAfter(fh, heap, c, b, k);
      RemovedShows(fh, heap, t, o, fh, heap[c[k - 1] := heap[c[k - 1]].(next := heap[o].next)], k);
    }
  }

  lemma {:induction false} RemovedShows(fh: seq<nat>, heap: map<nat, Foo>, t: Table, o: nat,
                                        fh1: seq<nat>, heap1: map<nat, Foo>, k: nat)
    requires Shows(fh, heap, t) && o in heap && heap[o].count == 1 && heap1.Keys == heap.Keys && |fh1| == NHASH
    requires k == IndexOf(t.lists[Bucket(heap[o].id)], o) && k < |t.lists[Bucket(heap[o].id)]|
    requires Linked(fh1, heap1, Without(t.lists[Bucket(heap[o].id)], k), Bucket(heap[o].id))
    requires forall b :: 0 <= b < NHASH && b != Bucket(heap[o].id) ==> fh1[b] == fh[b]
    requires forall x :: x in heap ==> heap1[x].id == heap[x].id && heap1[x].count == heap[x].count
    requires forall x :: x in heap && Bucket(heap[x].id) != Bucket(heap[o].id) ==> heap1[x].next == heap[x].next
    ensures Shows(fh1, heap1 - {o}, Rele(t, o))
  {
    var a := Bucket(heap[o].id);
    var c, t', heap' := t.lists[a], Rele(t, o), heap1 - {o};
    forall b | 0 <= b < NHASH ensures Linked(fh1, heap', t'.lists[b], b) {
      ListInHeap(fh, heap, t, b);
      if b == a {
        WithoutLacks(c, k, o);
        RestInHeap(c, k, o, heap);
        LinkedFrame(fh1, fh1, heap1, heap', Without(c, k), b);
      } else {
        LinkedFrame(fh, fh1, heap, heap', t.lists[b], b);
      }
    }
    hide Linked;
    forall x | x in heap' ensures x in t'.lists[Bucket(heap'[x].id)] {
      assert x in t.lists[Bucket(heap[x].id)];
      if Bucket(heap[x].id) == a {
        StaysIn(c, k, x);
      }
    }
  }

  lemma RestInHeap(c: seq<nat>, k: nat, o: nat, heap: map<nat, Foo>)
    requires k < |c| && forall x :: x in c ==> x in heap
    ensures forall x :: x in Without(c, k) ==> x in heap
  {
  }

  lemma WithoutLacks(c: seq<nat>, k: nat, o: nat)
    requires NoDup(c) && k < |c| && c[k] == o
    ensures o !in Without(c, k)
  {
  }

  lemma StaysIn(c: seq<nat>, k: nat, x: nat)
    requires k < |c| && x in c && x != c[k]
    ensures x in Without(c, k)
  {
    var j :| 0 <= j < |c| && c[j] == x;
    var r := Without(c, k);
    if j < k {
      assert r[j] == x;
    } else {
      assert r[j - 1] == x;
    }
  }
}
