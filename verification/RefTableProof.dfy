/** Safety, freedom from deadlock, and refinement of the one-lock table by the two-level table. */
module RefTableProof {
  import opened Options
  import opened RefTableCoarse
  import opened RefTable

  // ----- what one thread's step may do to the others

  ghost predicate SameTable(mem: Mem, mem': Mem) {
    && mem'.fh == mem.fh && mem'.lists == mem.lists
    && (forall o :: Tabled(mem, o) ==>
          Tabled(mem', o) && FooAt(mem', o).id == FooAt(mem, o).id && FooAt(mem', o).next == FooAt(mem, o).next)
  }

  /** A step of t that holds the hash lock or not, and the f_lock of some objects. */
  ghost predicate Others(mem: Mem, mem': Mem, t: Tid, hasHash: bool, locked: set<nat>) {
    && (forall u, o :: u != t && Token(mem, u, o) ==> Token(mem', u, o))
    && (forall o :: o in mem.limbo && mem.limbo[o] != t ==>
          o in mem'.limbo && mem'.limbo[o] == mem.limbo[o] && FooAt(mem', o) == FooAt(mem, o))
    && (!hasHash ==> SameTable(mem, mem'))
    && (forall o :: Tabled(mem, o) && o !in locked ==> Tabled(mem', o))
    && (forall u, o :: u != t && o !in locked && Sole(mem, u, o) ==> Sole(mem', u, o))
  }

  lemma ListedTabled(mem: Mem, b: nat, o: nat)
    requires MemInv(mem) && b < NHASH && o in ListAt(mem, b)
    ensures Tabled(mem, o) && o != 0 && Bucket(mem.heap[o].id) == b
  {
    assert Linked(mem.fh, mem.heap, mem.lists[b], b);
    InHeap(mem.fh, mem.heap, mem.lists[b], b, o);
  }

  lemma {:induction false} MatchSame(t: Table, t': Table, c: seq<nat>, id: int, i: nat)
    requires forall o :: o in c ==> IdOf(t', o) == IdOf(t, o)
    ensures Match(t', c, id, i) == Match(t, c, id, i)
    decreases |c| - i
  {
    if i < |c| {
      assert c[i] in c;
      MatchSame(t, t', c, id, i + 1);
    }
  }

  lemma SameSearch(mem: Mem, mem': Mem, id: int)
    requires MemInv(mem) && SameTable(mem, mem')
    ensures forall i: nat ::
      Match(Abs(mem'), ListAt(mem, Bucket(id)), id, i) == Match(Abs(mem), ListAt(mem, Bucket(id)), id, i)
    ensures Found(Abs(mem'), id) == Found(Abs(mem), id)
  {
    hide MemInv;
    var b := Bucket(id);
    var c := ListAt(mem, b);
    forall o | o in c ensures IdOf(Abs(mem'), o) == IdOf(Abs(mem), o) {
      ListedTabled(mem, b, o);
    }
    forall i: nat ensures Match(Abs(mem'), c, id, i) == Match(Abs(mem), c, id, i) {
      MatchSame(Abs(mem), Abs(mem'), c, id, i);
    }
  }

  /** Assertions that rest on the hash lock. */
  lemma {:induction false} HashPcKept(mem: Mem, mem': Mem, flock: map<nat, Tid>, flock': map<nat, Tid>, u: Tid, pc: Pc)
    requires MemInv(mem) && PcInv(mem, flock, u, pc) && SameTable(mem, mem')
    requires pc.FindTest? || pc.FindLock? || pc.FindInc?
    ensures PcInv(mem', flock', u, pc)
  {
    hide MemInv, Abs, Match, Found;
    SameSearch(mem, mem', pc.id);
    if pc.FindTest? {
      var i: nat :| SearchAt(mem, pc.id, pc.cur, i);
      assert SearchAt(mem', pc.id, pc.cur, i);
    }
  }

  lemma {:induction false} WalkPcKept(mem: Mem, mem': Mem, flock: map<nat, Tid>, flock': map<nat, Tid>, u: Tid, pc: Pc)
    requires PcInv(mem, flock, u, pc) && SameTable(mem, mem') && pc.ReleWalk? && Sole(mem', u, pc.o)
    ensures PcInv(mem', flock', u, pc)
  {
    hide IndexOf;
    var i: nat :| Before(mem, pc.o, pc.x, i);
    assert Before(mem', pc.o, pc.x, i);
  }

  lemma {:induction false} Undisturbed(mem: Mem, mem': Mem, flock: map<nat, Tid>, flock': map<nat, Tid>, t: Tid,
                                       hasHash: bool, locked: set<nat>, u: Tid, pc: Pc)
    requires MemInv(mem) && PcInv(mem, flock, u, pc) && Others(mem, mem', t, hasHash, locked) && u != t
    requires (HasHash(pc) ==> !hasHash) && LockedBy(pc) !! locked
    requires forall o :: Owned(mem, u, o) && o !in flock ==> o !in flock'
    ensures PcInv(mem', flock', u, pc)
  {
    hide MemInv;
    if pc.FindTest? || pc.FindLock? || pc.FindInc? {
      HashPcKept(mem, mem', flock, flock', u, pc);
    } else if pc.ReleWalk? {
      assert pc.o in LockedBy(pc);
      WalkPcKept(mem, mem', flock, flock', u, pc);
    } else {
      hide SearchAt, Before, Abs, Found, Match;
      PlainPcKept(mem, mem', flock, flock', t, hasHash, locked, u, pc);
    }
  }

  lemma {:induction false} PlainPcKept(mem: Mem, mem': Mem, flock: map<nat, Tid>, flock': map<nat, Tid>, t: Tid,
                                       hasHash: bool, locked: set<nat>, u: Tid, pc: Pc)
    requires PcInv(mem, flock, u, pc) && Others(mem, mem', t, hasHash, locked) && u != t
    requires !pc.FindTest? && !pc.FindLock? && !pc.FindInc? && !pc.ReleWalk?
    requires (HasHash(pc) ==> !hasHash) && LockedBy(pc) !! locked
    requires forall o :: Owned(mem, u, o) && o !in flock ==> o !in flock'
    ensures PcInv(mem', flock', u, pc)
  {
    hide SearchAt, Before, Abs, Found, Match, Bucket;
    if pc.ReleUnlock? || pc.ReleUnlock2? || pc.ReleHead? {
      assert pc.o in LockedBy(pc);
    }
  }

  // ----- effects confined to a few objects

  ghost predicate SameObj(mem: Mem, mem': Mem, o: nat) {
    && FooAt(mem', o) == FooAt(mem, o) && RefsOf(mem', o) == RefsOf(mem, o)
    && (o in mem'.heap <==> o in mem.heap) && (o in mem'.refs <==> o in mem.refs)
    && (o in mem'.limbo <==> o in mem.limbo) && (o in mem.limbo ==> mem'.limbo[o] == mem.limbo[o])
  }

  ghost predicate SameElse(mem: Mem, mem': Mem, objs: set<nat>) {
    forall o :: o !in objs ==> SameObj(mem, mem', o)
  }

  /** What must hold at the objects that a step does touch. */
  ghost predicate Gentle(mem: Mem, mem': Mem, t: Tid, hasHash: bool, locked: set<nat>, o: nat) {
    && (forall u :: u != t && Token(mem, u, o) ==> Token(mem', u, o))
    && (o in mem.limbo ==> mem.limbo[o] == t)
    && (Tabled(mem, o) && !hasHash ==>
          Tabled(mem', o) && FooAt(mem', o).id == FooAt(mem, o).id && FooAt(mem', o).next == FooAt(mem, o).next)
    && (Tabled(mem, o) && o !in locked ==> Tabled(mem', o))
    && (o !in locked ==> forall u :: u != t && Sole(mem, u, o) ==> Sole(mem', u, o))
  }

  lemma {:induction false} GentleOthers(mem: Mem, mem': Mem, t: Tid, hasHash: bool, locked: set<nat>, objs: set<nat>)
    requires SameElse(mem, mem', objs) && (!hasHash ==> mem'.fh == mem.fh && mem'.lists == mem.lists)
    requires forall o :: o in objs ==> Gentle(mem, mem', t, hasHash, locked, o)
    ensures Others(mem, mem', t, hasHash, locked)
  {
    forall u, o | u != t && Token(mem, u, o) ensures Token(mem', u, o) {
      assert o in objs || SameObj(mem, mem', o);
    }
    forall o | o in mem.limbo && mem.limbo[o] != t
      ensures o in mem'.limbo && mem'.limbo[o] == mem.limbo[o] && FooAt(mem', o) == FooAt(mem, o)
    {
      assert o in objs || SameObj(mem, mem', o);
    }
    forall o | Tabled(mem, o)
      ensures !hasHash ==>
        Tabled(mem', o) && FooAt(mem', o).id == FooAt(mem, o).id && FooAt(mem', o).next == FooAt(mem, o).next
      ensures o !in locked ==> Tabled(mem', o)
    {
      assert o in objs || SameObj(mem, mem', o);
    }
    forall u, o | u != t && o !in locked && Sole(mem, u, o) ensures Sole(mem', u, o) {
      assert o in objs || SameObj(mem, mem', o);
    }
  }

  lemma HeapFrame(mem: Mem, heap': map<nat, Foo>)
    requires MemInv(mem)
    requires forall o :: Tabled(mem, o) ==>
      o in heap' && heap'[o].next == mem.heap[o].next && heap'[o].id == mem.heap[o].id
    ensures Bucketed(mem.fh, heap', mem.lists)
  {
    forall b | 0 <= b < NHASH ensures Linked(mem.fh, heap', mem.lists[b], b) {
      assert Linked(mem.fh, mem.heap, mem.lists[b], b);
      forall o | o in mem.lists[b] ensures Tabled(mem, o) {
        ListedTabled(mem, b, o);
      }
      LinkedFrame(mem.fh, mem.fh, mem.heap, heap', mem.lists[b], b);
    }
  }

  /** Objects whose record, references and lists are the same keep their invariant. */
  lemma ObjsKept(mem: Mem, mem': Mem, objs: set<nat>, o: nat)
    requires MemInv(mem) && SameElse(mem, mem', objs) && mem'.lists == mem.lists && o in mem'.heap && o !in objs
    ensures ObjInv(mem', o)
  {
    assert SameObj(mem, mem', o) && ObjInv(mem, o);
  }

  /** A change of one object that leaves the lists alone. */
  lemma {:induction false} LocalMem(mem: Mem, mem': Mem, o: nat)
    requires MemInv(mem) && SameElse(mem, mem', {o}) && mem'.fh == mem.fh && mem'.lists == mem.lists && o != 0
    requires mem'.refs.Keys == mem'.heap.Keys && mem'.limbo.Keys <= mem'.heap.Keys
    requires o in mem'.heap ==> ObjInv(mem', o)
    requires Tabled(mem, o) ==>
      o in mem'.heap && FooAt(mem', o).next == FooAt(mem, o).next && FooAt(mem', o).id == FooAt(mem, o).id
    ensures MemInv(mem')
  {
    hide Bucketed, ObjInv;
    forall x | Tabled(mem, x) ensures x in mem'.heap && mem'.heap[x].next == mem.heap[x].next &&
      mem'.heap[x].id == mem.heap[x].id {
      assert x == o || SameObj(mem, mem', x);
    }
    HeapFrame(mem, mem'.heap);
    forall x | x in mem'.heap ensures ObjInv(mem', x) {
      if x != o {
        ObjsKept(mem, mem', {o}, x);
      }
    }
    assert SameObj(mem, mem', 0);
  }

  // ----- each memory effect

  lemma ObjIn(mem: Mem, o: nat)
    requires MemInv(mem) && o in mem.heap
    ensures ObjInv(mem, o) && o != 0 && o in mem.refs
    ensures mem.refs.Keys == mem.heap.Keys && mem.limbo.Keys <= mem.heap.Keys
  {
    hide Bucketed;
  }

  lemma {:induction false} CountKeeps(mem: Mem, mem': Mem, t: Tid, o: nat, hasHash: bool, d: int)
    requires MemInv(mem) && Tabled(mem, o) && (d == 1 || (d == -1 && Token(mem, t, o) && FooAt(mem, o).count != 1))
    requires mem' == if d == 1 then IncMem(mem, t, o) else DecMem(mem, t, o)
    ensures MemInv(mem') && Others(mem, mem', t, hasHash, {o})
  {
    hide MemInv;
    ObjIn(mem, o);
    assert SameElse(mem, mem', {o}) && Gentle(mem, mem', t, hasHash, {o}, o) && ObjInv(mem', o);
    hide Gentle, SameElse, ObjInv, Others;
    LocalMem(mem, mem', o);
    GentleOthers(mem, mem', t, hasHash, {o}, {o});
  }

  lemma IncAbs(mem: Mem, t: Tid, o: nat)
    requires Tabled(mem, o)
    ensures Abs(IncMem(mem, t, o)) == Hold(Abs(mem), o) && Token(IncMem(mem, t, o), t, o)
  {
    assert Abs(IncMem(mem, t, o)).objs == Hold(Abs(mem), o).objs;
  }

  lemma DecAbs(mem: Mem, t: Tid, o: nat)
    requires Tabled(mem, o) && FooAt(mem, o).count != 1
    ensures Abs(DecMem(mem, t, o)) == Rele(Abs(mem), o) && Tabled(DecMem(mem, t, o), o)
  {
    assert Abs(DecMem(mem, t, o)).objs == Rele(Abs(mem), o).objs;
  }

  lemma {:induction false} NewKeeps(mem: Mem, t: Tid, o: nat, id: int)
    requires MemInv(mem) && o !in mem.heap && o != 0
    ensures MemInv(NewMem(mem, t, o, id)) && Others(mem, NewMem(mem, t, o, id), t, false, {})
  {
    hide MemInv, Others;
    var mem' := NewMem(mem, t, o, id);
    NotListed(mem, o, Bucket(id));
    KeysMatch(mem);
    assert SameElse(mem, mem', {o}) && Gentle(mem, mem', t, false, {}, o) && ObjInv(mem', o);
    hide Gentle, SameElse, ObjInv;
    LocalMem(mem, mem', o);
    GentleOthers(mem, mem', t, false, {}, {o});
  }

  lemma NewAbs(mem: Mem, t: Tid, o: nat, id: int)
    requires o !in mem.heap
    ensures Abs(NewMem(mem, t, o, id)) == Abs(mem)
  {
    assert Abs(NewMem(mem, t, o, id)).objs == Abs(mem).objs;
  }

  lemma KeysMatch(mem: Mem)
    requires MemInv(mem)
    ensures mem.refs.Keys == mem.heap.Keys && mem.limbo.Keys <= mem.heap.Keys
  {
    hide Bucketed, ObjInv;
  }

  lemma NotListed(mem: Mem, o: nat, b: nat)
    requires MemInv(mem) && o !in mem.heap && b < NHASH
    ensures o !in ListAt(mem, b)
  {
    if o in ListAt(mem, b) {
      ListedTabled(mem, b, o);
    }
  }

  lemma {:induction false} NextKeeps(mem: Mem, t: Tid, o: nat, v: nat)
    requires MemInv(mem) && Owned(mem, t, o)
    ensures MemInv(NextMem(mem, o, v)) && Others(mem, NextMem(mem, o, v), t, true, {})
    ensures Abs(NextMem(mem, o, v)) == Abs(mem)
  {
    hide MemInv, Others;
    var mem' := NextMem(mem, o, v);
    OwnedIn(mem, t, o);
    ObjIn(mem, o);
    assert Abs(mem').objs == Abs(mem).objs;
    assert SameElse(mem, mem', {o}) && Gentle(mem, mem', t, true, {}, o) && ObjInv(mem', o);
    hide Gentle, SameElse, ObjInv;
    LocalMem(mem, mem', o);
    GentleOthers(mem, mem', t, true, {}, {o});
  }

  lemma OwnedIn(mem: Mem, t: Tid, o: nat)
    requires MemInv(mem) && Owned(mem, t, o)
    ensures o in mem.heap && Sole(mem, t, o)
  {
    hide Bucketed;
    assert o in mem.limbo.Keys;
    assert ObjInv(mem, o);
  }

  lemma {:induction false} FreeKeeps(mem: Mem, t: Tid, o: nat)
    requires MemInv(mem) && Owned(mem, t, o)
    ensures MemInv(FreeMem(mem, o)) && Others(mem, FreeMem(mem, o), t, false, {})
    ensures Abs(FreeMem(mem, o)) == Abs(mem)
  {
    var mem' := FreeMem(mem, o);
    hide MemInv;
    OwnedIn(mem, t, o);
    ObjIn(mem, o);
    assert Abs(mem').objs == Abs(mem).objs;
    assert SameElse(mem, mem', {o}) && Gentle(mem, mem', t, false, {}, o);
    hide Gentle, SameElse, ObjInv, Others;
    LocalMem(mem, mem', o);
    GentleOthers(mem, mem', t, false, {}, {o});
  }

  lemma {:induction false} GiveKeeps(mem: Mem, t: Tid, u: Tid, o: nat)
    requires MemInv(mem) && Token(mem, t, o) && Tabled(mem, o)
    ensures MemInv(GiveMem(mem, t, u, o)) && Others(mem, GiveMem(mem, t, u, o), t, false, {})
    ensures Abs(GiveMem(mem, t, u, o)) == Abs(mem)
  {
    hide MemInv, Others;
    var mem' := GiveMem(mem, t, u, o);
    ObjIn(mem, o);
    MoveOne(RefsOf(mem, o), t, u);
    assert SameElse(mem, mem', {o}) && Gentle(mem, mem', t, false, {}, o) && ObjInv(mem', o);
    hide Gentle, SameElse, ObjInv;
    LocalMem(mem, mem', o);
    GentleOthers(mem, mem', t, false, {}, {o});
  }

  lemma MoveOne(r: multiset<Tid>, t: Tid, u: Tid)
    requires t in r
    ensures |r - multiset{t} + multiset{u}| == |r|
  {
  }

  // ----- linking and unlinking

  lemma {:induction false} LinkBuckets(mem: Mem, o: nat)
    requires MemInv(mem) && o in mem.limbo && FooAt(mem, o).next == HeadAt(mem, BucketOf(mem, o))
    ensures Bucketed(LinkMem(mem, o).fh, LinkMem(mem, o).heap, LinkMem(mem, o).lists)
  {
    var mem', b := LinkMem(mem, o), BucketOf(mem, o);
    ObjIn(mem, o);
    forall a | 0 <= a < NHASH ensures Linked(mem'.fh, mem'.heap, mem'.lists[a], a) {
      assert Linked(mem.fh, mem.heap, mem.lists[a], a);
      if a == b {
        LinkFront(mem.fh, mem.heap, mem.lists[b], b, o);
      } else {
        forall x | x in mem.lists[a] ensures x in mem.heap {
          ListedTabled(mem, a, x);
        }
        LinkedFrame(mem.fh, mem'.fh, mem.heap, mem.heap, mem.lists[a], a);
      }
    }
  }

  lemma {:induction false} LinkObjs(mem: Mem, o: nat, x: nat)
    requires MemInv(mem) && o in mem.limbo && x in mem.heap
    ensures ObjInv(LinkMem(mem, o), x)
  {
    hide MemInv;
    KeysMatch(mem);
    ObjIn(mem, x);
    TableSize(mem);
    var mem', b := LinkMem(mem, o), BucketOf(mem, o);
    var c := mem.lists[b];
    assert ListAt(mem', b) == [o] + c && ([o] + c)[0] == o;
    assert x in [o] + c <==> x == o || x in c;
    assert BucketOf(mem', x) == BucketOf(mem, x);
    hide BucketOf;
    assert BucketOf(mem, x) != b ==> ListAt(mem', BucketOf(mem, x)) == ListAt(mem, BucketOf(mem, x));
  }

  lemma TableSize(mem: Mem)
    requires MemInv(mem)
    ensures |mem.fh| == NHASH == |mem.lists|
  {
  }

  lemma {:induction false} LinkKeeps(mem: Mem, t: Tid, o: nat)
    requires MemInv(mem) && Owned(mem, t, o) && FooAt(mem, o).next == HeadAt(mem, BucketOf(mem, o))
    ensures MemInv(LinkMem(mem, o)) && Others(mem, LinkMem(mem, o), t, true, {})
    ensures Token(LinkMem(mem, o), t, o)
  {
    hide Others, BucketOf, ObjInv;
    var mem' := LinkMem(mem, o);
    LinkBuckets(mem, o);
    OwnedIn(mem, t, o);
    hide Bucketed;
    forall x | x in mem'.heap ensures ObjInv(mem', x) {
      LinkObjs(mem, o, x);
    }
    assert MemInv(mem');
    hide MemInv;
    assert SameElse(mem, mem', {o}) && Gentle(mem, mem', t, true, {}, o);
    hide Gentle, SameElse;
    GentleOthers(mem, mem', t, true, {}, {o});
  }

  lemma LinkAbs(mem: Mem, o: nat)
    requires MemInv(mem) && o in mem.limbo && FooAt(mem, o).count == 1
    ensures Abs(LinkMem(mem, o)) == Alloc(Abs(mem), o, FooAt(mem, o).id)
  {
    hide Linked, ObjInv;
    assert Abs(LinkMem(mem, o)).objs == Alloc(Abs(mem), o, FooAt(mem, o).id).objs;
  }

  /** o is the first of its bucket (x null) or x is the one before it. */
  ghost predicate Precedes(mem: Mem, o: nat, x: nat) {
    var c := ListAt(mem, BucketOf(mem, o));
    var k := IndexOf(c, o);
    k < |c| && (if x == 0 then k == 0 else 0 < k && c[k - 1] == x)
  }

  lemma {:induction false} UnlinkBucket(mem: Mem, t: Tid, o: nat, x: nat)
    requires MemInv(mem) && Tabled(mem, o) && Precedes(mem, o, x)
    ensures var mem', b := UnlinkMem(mem, t, o, x), BucketOf(mem, o);
      |mem'.fh| == NHASH == |mem'.lists| && Linked(mem'.fh, mem'.heap, mem'.lists[b], b)
  {
    hide ObjInv;
    var b := BucketOf(mem, o);
    var c := mem.lists[b];
    assert Linked(mem.fh, mem.heap, c, b);
    var k := IndexOf(c, o);
    if x == 0 {
      UnlinkHead(mem.fh, mem.heap, c, b);
    } else {
      UnlinkAfter(mem.fh, mem.heap, c, b, k);
    }
  }

  lemma {:induction false} UnlinkOther(mem: Mem, t: Tid, o: nat, x: nat, a: nat)
    requires MemInv(mem) && Tabled(mem, o) && Precedes(mem, o, x) && a < NHASH && a != BucketOf(mem, o)
    ensures var mem' := UnlinkMem(mem, t, o, x);
      |mem'.fh| == NHASH == |mem'.lists| && Linked(mem'.fh, mem'.heap, mem'.lists[a], a)
  {
    hide ObjInv;
    var mem' := UnlinkMem(mem, t, o, x);
    var b := BucketOf(mem, o);
    assert Linked(mem.fh, mem.heap, mem.lists[a], a);
    if x != 0 {
      ListedTabled(mem, b, x);
    }
    forall y | y in mem.lists[a] ensures y in mem.heap && y in mem'.heap && mem'.heap[y] == mem.heap[y] {
      ListedTabled(mem, a, y);
    }
    LinkedFrame(mem.fh, mem'.fh, mem.heap, mem'.heap, mem.lists[a], a);
  }

  lemma OnlyInOwnBucket(mem: Mem, o: nat, a: nat)
    requires MemInv(mem) && o in mem.heap && a < NHASH && a != BucketOf(mem, o)
    ensures o !in ListAt(mem, a)
  {
    if o in ListAt(mem, a) {
      ListedTabled(mem, a, o);
    }
  }

  lemma WithoutMembers(c: seq<nat>, k: nat, o: nat, y: nat)
    requires NoDup(c) && k < |c| && c[k] == o
    ensures y in Without(c, k) <==> y in c && y != o
  {
    WithoutLacks(c, k, o);
    if y != o && y in c {
      StaysIn(c, k, y);
    }
    if y in Without(c, k) {
      ComesFrom(c, k, y);
    }
  }

  lemma ListNoDup(mem: Mem, b: nat)
    requires MemInv(mem) && b < NHASH
    ensures |mem.fh| == NHASH == |mem.lists| && NoDup(mem.lists[b])
  {
    assert Linked(mem.fh, mem.heap, mem.lists[b], b);
  }

  /** What unlinking o does to the membership of the bucket lists. */
  lemma {:induction false} UnlinkLists(mem: Mem, t: Tid, o: nat, x: nat, y: nat, a: nat)
    requires MemInv(mem) && Tabled(mem, o) && Precedes(mem, o, x) && a < NHASH
    ensures y in ListAt(UnlinkMem(mem, t, o, x), a) <==> y in ListAt(mem, a) && y != o
  {
    hide MemInv, NoDup, BucketOf;
    var b := BucketOf(mem, o);
    BucketRange(mem, o);
    ListNoDup(mem, b);
    if a != b {
      OnlyInOwnBucket(mem, o, a);
    } else {
      WithoutMembers(mem.lists[b], IndexOf(mem.lists[b], o), o, y);
    }
    hide Without, IndexOf;
  }

  lemma BucketRange(mem: Mem, o: nat)
    ensures BucketOf(mem, o) < NHASH
  {
  }

  lemma {:induction false} UnlinkObjs(mem: Mem, t: Tid, o: nat, x: nat, y: nat)
    requires MemInv(mem) && Tabled(mem, o) && Precedes(mem, o, x) && Sole(mem, t, o) &&
      y in UnlinkMem(mem, t, o, x).heap
    ensures ObjInv(UnlinkMem(mem, t, o, x), y)
  {
    hide MemInv, Precedes;
    var mem' := UnlinkMem(mem, t, o, x);
    KeysMatch(mem);
    TableSize(mem);
    if x != 0 {
      PrecedesIn(mem, o, x);
    }
    assert y in mem.heap && FooAt(mem', y).(next := 0) == FooAt(mem, y).(next := 0) &&
      RefsOf(mem', y) == RefsOf(mem, y);
    assert mem'.limbo == mem.limbo[o := t];
    ObjIn(mem, y);
    UnlinkLists(mem, t, o, x, y, BucketOf(mem, y));
    hide UnlinkMem;
    assert BucketOf(mem', y) == BucketOf(mem, y);
    hide BucketOf, FooAt;
  }

  lemma ComesFrom(c: seq<nat>, k: nat, y: nat)
    requires k < |c| && y in Without(c, k)
    ensures y in c
  {
    var j :| 0 <= j < |Without(c, k)| && Without(c, k)[j] == y;
    assert y == c[if j < k then j else j + 1];
  }

  lemma {:induction false} UnlinkKeeps(mem: Mem, t: Tid, o: nat, x: nat)
    requires MemInv(mem) && Tabled(mem, o) && Precedes(mem, o, x) && Sole(mem, t, o)
    ensures MemInv(UnlinkMem(mem, t, o, x)) && Others(mem, UnlinkMem(mem, t, o, x), t, true, {o})
    ensures Owned(UnlinkMem(mem, t, o, x), t, o)
  {
    hide Others, ObjInv, Precedes, Linked;
    var mem' := UnlinkMem(mem, t, o, x);
    UnlinkBucket(mem, t, o, x);
    forall a | 0 <= a < NHASH ensures Linked(mem'.fh, mem'.heap, mem'.lists[a], a) {
      if a != BucketOf(mem, o) {
        UnlinkOther(mem, t, o, x, a);
      }
    }
    forall y | y in mem'.heap ensures ObjInv(mem', y) {
      UnlinkObjs(mem, t, o, x, y);
    }
    if x != 0 {
      PrecedesIn(mem, o, x);
    }
    assert MemInv(mem');
    UnlinkGentle(mem, t, o, x);
  }

  lemma PrecedesIn(mem: Mem, o: nat, x: nat)
    requires MemInv(mem) && Tabled(mem, o) && Precedes(mem, o, x) && x != 0
    ensures Tabled(mem, x) && x != o
  {
    ListedTabled(mem, BucketOf(mem, o), x);
  }

  lemma UnlinkFrame(mem: Mem, t: Tid, o: nat, x: nat)
    requires MemInv(mem) && Tabled(mem, o) && Precedes(mem, o, x)
    ensures var mem' := UnlinkMem(mem, t, o, x);
      && mem'.refs == mem.refs && mem'.limbo == mem.limbo[o := t] && mem'.heap.Keys == mem.heap.Keys
      && (forall y :: y != x ==> FooAt(mem', y) == FooAt(mem, y))
    ensures x != 0 ==> Tabled(mem, x) && x != o
  {
    TableSize(mem);
    if x != 0 {
      PrecedesIn(mem, o, x);
    }
    hide MemInv, Precedes, Without, IndexOf;
    if x != 0 {
      assert UnlinkMem(mem, t, o, x).heap == mem.heap[x := mem.heap[x].(next := FooAt(mem, o).next)];
    }
  }

  lemma {:induction false} UnlinkGentle(mem: Mem, t: Tid, o: nat, x: nat)
    requires MemInv(mem) && Tabled(mem, o) && Precedes(mem, o, x) && Sole(mem, t, o)
    ensures Others(mem, UnlinkMem(mem, t, o, x), t, true, {o})
  {
    hide MemInv, Others, Precedes, UnlinkMem;
    var mem' := UnlinkMem(mem, t, o, x);
    UnlinkFrame(mem, t, o, x);
    var objs := if x == 0 then {o} else {o, x};
    forall y | y !in objs ensures SameObj(mem, mem', y) {
      if x == 0 && y == 0 {
        KeysMatch(mem);
        NullUnused(mem);
      }
    }
    assert Gentle(mem, mem', t, true, {o}, o);
    if x != 0 {
      assert Gentle(mem, mem', t, true, {o}, x);
    }
    hide Gentle, SameElse, SameObj;
    assert SameElse(mem, mem', objs) by { SameElseOf(mem, mem', objs); }
    GentleOthers(mem, mem', t, true, {o}, objs);
  }

  lemma NullUnused(mem: Mem)
    requires MemInv(mem)
    ensures 0 !in mem.heap
  {
  }

  lemma SameElseOf(mem: Mem, mem': Mem, objs: set<nat>)
    requires forall y :: y !in objs ==> SameObj(mem, mem', y)
    ensures SameElse(mem, mem', objs)
  {
  }

  lemma UnlinkAbs(mem: Mem, t: Tid, o: nat, x: nat)
    requires MemInv(mem) && Tabled(mem, o) && Precedes(mem, o, x) && Sole(mem, t, o)
    ensures Abs(UnlinkMem(mem, t, o, x)) == Rele(Abs(mem), o)
  {
    hide MemInv, Precedes, Without, IndexOf;
    ObjIn(mem, o);
    KeysMatch(mem);
    TableSize(mem);
    assert FooAt(mem, o).count == 1;
    if x != 0 {
      PrecedesIn(mem, o, x);
    }
    assert Abs(UnlinkMem(mem, t, o, x)).objs == Rele(Abs(mem), o).objs;
  }

  // ----- putting one step together

  predicate HoldsHash(sys: Sys, t: Tid) { t in sys.threads && HasHash(sys.threads[t]) }

  function Locks(sys: Sys, t: Tid): set<nat> {
    if t in sys.threads then LockedBy(sys.threads[t]) else {}
  }

  lemma Exclusive(sys: Sys, t: Tid, u: Tid)
    requires LockInv(sys) && u in sys.threads && u != t
    ensures HasHash(sys.threads[u]) ==> !HoldsHash(sys, t)
    ensures LockedBy(sys.threads[u]) !! Locks(sys, t)
  {
    hide HasHash, LockedBy;
  }

  /** Every other thread's assertions survive a step that respects the locks. */
  lemma {:induction false} StepInv(sys: Sys, sys': Sys, t: Tid)
    requires Inv(sys) && Others(sys.mem, sys'.mem, t, HoldsHash(sys, t), Locks(sys, t))
    requires MemInv(sys'.mem) && LockInv(sys') && LimboInv(sys')
    requires forall u :: u != t ==> (u in sys'.threads <==> u in sys.threads)
    requires forall u :: u in sys.threads && u != t ==> sys'.threads[u] == sys.threads[u]
    requires t in sys'.threads ==> PcInv(sys'.mem, sys'.flock, t, sys'.threads[t])
    requires forall u, o :: u != t && Owned(sys.mem, u, o) && o !in sys.flock ==> o !in sys'.flock
    ensures Inv(sys')
  {
    hide MemInv, LockInv, LimboInv, Others, PcInv, HoldsHash, Locks, LockedBy, HasHash;
    forall u | u in sys'.threads ensures PcInv(sys'.mem, sys'.flock, u, sys'.threads[u]) {
      if u != t {
        Exclusive(sys, t, u);
        Undisturbed(sys.mem, sys'.mem, sys.flock, sys'.flock, t, HoldsHash(sys, t), Locks(sys, t), u, sys.threads[u]);
      }
    }
  }

  lemma Quiet(mem: Mem, t: Tid, hasHash: bool, locked: set<nat>)
    ensures Others(mem, mem, t, hasHash, locked)
  {
  }

  lemma SoleOwner(mem: Mem, t: Tid, u: Tid, o: nat)
    requires MemInv(mem) && Owned(mem, u, o) && u != t
    ensures !Token(mem, t, o) && !Tabled(mem, o)
  {
    hide Bucketed;
    OwnedIn(mem, u, o);
  }

  /** A reference held by a thread that is not creating or destroying an object is to an object in the table. */
  lemma TokenTabled(sys: Sys, t: Tid, o: nat)
    requires Inv(sys) && Token(sys.mem, t, o) && (t in sys.threads ==> !Limbo(sys.threads[t]))
    ensures Tabled(sys.mem, o)
  {
    hide LockInv, PcInv, Bucketed;
    KeysMatch(sys.mem);
    ObjIn(sys.mem, o);
  }

  lemma InvOf(sys: Sys, t: Tid)
    requires Inv(sys)
    ensures MemInv(sys.mem) && LockInv(sys) && LimboInv(sys)
    ensures t in sys.threads ==> PcInv(sys.mem, sys.flock, t, sys.threads[t])
  {
    hide MemInv, LockInv, LimboInv, PcInv;
  }

  // ----- lock steps

  /** A lock word changes only to say what thread t now holds. */
  lemma {:induction false} LockChange(sys: Sys, sys': Sys, t: Tid)
    requires LockInv(sys)
    requires forall u :: u != t ==> (u in sys'.threads <==> u in sys.threads)
    requires forall u :: u in sys.threads && u != t ==> sys'.threads[u] == sys.threads[u]
    requires HoldsHash(sys', t) ==> HoldsHash(sys, t) || sys.hash.None?
    requires sys'.hash == if HoldsHash(sys', t) then Some(t) else if HoldsHash(sys, t) then None else sys.hash
    requires forall o :: o in Locks(sys', t) ==> o !in sys.flock || sys.flock[o] == t
    requires forall o :: o in sys'.flock <==> o in Locks(sys', t) || (o in sys.flock && sys.flock[o] != t)
    requires forall o :: o in sys'.flock ==> sys'.flock[o] == if o in Locks(sys', t) then t else sys.flock[o]
    ensures LockInv(sys')
  {
    hide HasHash, LockedBy;
    forall u | u in sys'.threads ensures forall o :: o in LockedBy(sys'.threads[u]) ==>
      o in sys'.flock && sys'.flock[o] == u {
      if u != t {
        Exclusive(sys, t, u);
      }
    }
  }

  lemma {:induction false} LockLocks(sys: Sys, t: Tid, pc: Pc)
    requires LockInv(sys) && Enabled(sys, t) && sys.threads[t] == pc && (WaitsHash(pc) || WaitsLock(pc))
    ensures LockInv(LockStep(sys, t, pc))
  {
    hide LockInv;
    if WaitsHash(pc) {
      TakesHash(sys, t, pc);
    } else {
      TakesLock(sys, t, pc);
    }
  }

  lemma {:induction false} TakesHash(sys: Sys, t: Tid, pc: Pc)
    requires LockInv(sys) && t in sys.threads && sys.threads[t] == pc && WaitsHash(pc) && sys.hash.None?
    ensures LockInv(LockStep(sys, t, pc))
  {
    hide LockInv;
    OneHeld(sys, t, pc);
    LockChange(sys, LockStep(sys, t, pc), t);
  }

  lemma {:induction false} TakesLock(sys: Sys, t: Tid, pc: Pc)
    requires LockInv(sys) && t in sys.threads && sys.threads[t] == pc && WaitsLock(pc) && Wanted(pc) !in sys.flock
    ensures LockInv(LockStep(sys, t, pc))
  {
    hide LockInv;
    OneHeld(sys, t, pc);
    LockChange(sys, LockStep(sys, t, pc), t);
  }

  lemma OneHeld(sys: Sys, t: Tid, pc: Pc)
    requires LockInv(sys) && t in sys.threads && sys.threads[t] == pc
    ensures forall o :: o in LockedBy(pc) <==> o in sys.flock && sys.flock[o] == t
    ensures HasHash(pc) <==> sys.hash == Some(t)
  {
    hide LockedBy, HasHash;
  }

  lemma LockPc(sys: Sys, t: Tid, pc: Pc)
    requires PcInv(sys.mem, sys.flock, t, pc) && (WaitsHash(pc) || WaitsLock(pc)) && t in sys.threads
    ensures t in LockStep(sys, t, pc).threads
    ensures PcInv(sys.mem, LockStep(sys, t, pc).flock, t, LockStep(sys, t, pc).threads[t])
    ensures LockStep(sys, t, pc).mem == sys.mem
    ensures Limbo(pc) ==> pc.AllocHash? && LockStep(sys, t, pc).threads[t] == AllocNext(pc.o)
  {
    hide Abs, Found, SearchAt, Before, Token, Tabled, Owned, Sole, FooAt, HeadAt, BucketOf;
  }

  lemma LimboMove(sys: Sys, sys': Sys, t: Tid)
    requires LimboInv(sys) && sys'.mem.limbo == sys.mem.limbo
    requires forall u :: u in sys.threads && u != t ==> u in sys'.threads && sys'.threads[u] == sys.threads[u]
    requires t in sys.threads && Limbo(sys.threads[t]) ==>
      t in sys'.threads && Limbo(sys'.threads[t]) && sys'.threads[t].o == sys.threads[t].o
    ensures LimboInv(sys')
  {
    hide Limbo;
  }

  lemma LockThreads(sys: Sys, t: Tid, pc: Pc)
    requires t in sys.threads
    ensures forall u :: u != t ==> (u in LockStep(sys, t, pc).threads <==> u in sys.threads)
    ensures forall u :: u in sys.threads && u != t ==> LockStep(sys, t, pc).threads[u] == sys.threads[u]
  {
  }

  lemma LockFlock(sys: Sys, t: Tid, pc: Pc, u: Tid, o: nat)
    requires MemInv(sys.mem) && PcInv(sys.mem, sys.flock, t, pc) && (WaitsHash(pc) || WaitsLock(pc))
    requires u != t && Owned(sys.mem, u, o) && o !in sys.flock
    ensures o !in LockStep(sys, t, pc).flock
  {
    hide MemInv, Abs, Found;
    SoleOwner(sys.mem, t, u, o);
  }

  lemma {:induction false} LockStepInv(sys: Sys, t: Tid, pc: Pc)
    requires Inv(sys) && Enabled(sys, t) && sys.threads[t] == pc && (WaitsHash(pc) || WaitsLock(pc))
    ensures Inv(LockStep(sys, t, pc))
  {
    hide Inv, MemInv, LockInv, LimboInv, PcInv, Others, LockStep, LockedBy, HasHash, Limbo, WaitsHash, WaitsLock,
      Enabled;
    var sys' := LockStep(sys, t, pc);
    assert t in sys.threads by { EnabledIn(sys, t); }
    InvOf(sys, t);
    LockLocks(sys, t, pc);
    LockPc(sys, t, pc);
    LockThreads(sys, t, pc);
    LockLimbo(sys, t, pc);
    Quiet(sys.mem, t, HoldsHash(sys, t), Locks(sys, t));
    forall u, o | u != t && Owned(sys.mem, u, o) && o !in sys.flock ensures o !in sys'.flock {
      LockFlock(sys, t, pc, u, o);
    }
    StepInv(sys, sys', t);
  }

  lemma EnabledIn(sys: Sys, t: Tid)
    requires Enabled(sys, t)
    ensures t in sys.threads
  {
  }

  lemma LockLimbo(sys: Sys, t: Tid, pc: Pc)
    requires LimboInv(sys) && t in sys.threads && sys.threads[t] == pc && (WaitsHash(pc) || WaitsLock(pc))
    ensures LimboInv(LockStep(sys, t, pc))
  {
    hide LimboInv;
    LimboMove(sys, LockStep(sys, t, pc), t);
  }

  // ----- unlock steps

  lemma {:induction false} UnlockLocks(sys: Sys, t: Tid, pc: Pc)
    requires LockInv(sys) && t in sys.threads && sys.threads[t] == pc && Unlocks(pc)
    ensures LockInv(UnlockStep(sys, t, pc))
  {
    hide LockInv;
    OneHeld(sys, t, pc);
    LockChange(sys, UnlockStep(sys, t, pc), t);
  }

  lemma UnlockPc(sys: Sys, t: Tid, pc: Pc)
    requires t in sys.threads && sys.threads[t] == pc && PcInv(sys.mem, sys.flock, t, pc) && Unlocks(pc)
    ensures var sys' := UnlockStep(sys, t, pc);
      && sys'.mem == sys.mem && (forall o :: o in sys'.flock ==> o in sys.flock)
      && (forall u :: u != t ==> (u in sys'.threads <==> u in sys.threads))
      && (forall u :: u in sys.threads && u != t ==> sys'.threads[u] == sys.threads[u])
      && (t in sys'.threads ==> PcInv(sys.mem, sys'.flock, t, sys'.threads[t]))
  {
    hide PcInv;
    UnlockKeepsPc(sys, t, pc);
  }

  lemma UnlockKeepsPc(sys: Sys, t: Tid, pc: Pc)
    requires t in sys.threads && sys.threads[t] == pc && PcInv(sys.mem, sys.flock, t, pc) && Unlocks(pc)
    ensures var sys' := UnlockStep(sys, t, pc);
      t in sys'.threads ==> PcInv(sys.mem, sys'.flock, t, sys'.threads[t])
  {
    hide Abs, Found, SearchAt, Before, Token, Tabled, Owned, Sole, FooAt, HeadAt, BucketOf;
  }

  lemma UnlockLimbo(sys: Sys, t: Tid, pc: Pc)
    requires LimboInv(sys) && t in sys.threads && sys.threads[t] == pc && Unlocks(pc)
    ensures LimboInv(UnlockStep(sys, t, pc))
  {
    hide LimboInv;
    LimboMove(sys, UnlockStep(sys, t, pc), t);
  }

  lemma {:induction false} UnlockStepInv(sys: Sys, t: Tid, pc: Pc)
    requires Inv(sys) && t in sys.threads && sys.threads[t] == pc && Unlocks(pc)
    ensures Inv(UnlockStep(sys, t, pc))
  {
    hide Inv, MemInv, LockInv, LimboInv, PcInv, Others, UnlockStep, LockedBy, HasHash, Limbo, Unlocks;
    InvOf(sys, t);
    UnlockLocks(sys, t, pc);
    UnlockPc(sys, t, pc);
    UnlockLimbo(sys, t, pc);
    Quiet(sys.mem, t, HoldsHash(sys, t), Locks(sys, t));
    StepInv(sys, UnlockStep(sys, t, pc), t);
  }

  // ----- memory steps

  lemma {:induction false} MemStepInv(sys: Sys, sys': Sys, t: Tid, pc': Pc)
    requires Inv(sys) && t in sys.threads && sys'.threads == sys.threads[t := pc'] && sys'.flock == sys.flock &&
      sys'.hash == sys.hash
    requires HasHash(pc') == HasHash(sys.threads[t]) && LockedBy(pc') == LockedBy(sys.threads[t])
    requires MemInv(sys'.mem) && Others(sys.mem, sys'.mem, t, HasHash(sys.threads[t]), LockedBy(sys.threads[t]))
    requires LimboInv(sys') && PcInv(sys'.mem, sys.flock, t, pc')
    ensures Inv(sys')
  {
    hide Inv, MemInv, LimboInv, PcInv, Others, LockedBy, HasHash, LockInv;
    InvOf(sys, t);
    OneHeld(sys, t, sys.threads[t]);
    LockChange(sys, sys', t);
    StepInv(sys, sys', t);
  }

  /** Steps that only read. */
  lemma {:induction false} ReadInv(sys: Sys, sys': Sys, t: Tid, pc': Pc)
    requires Inv(sys) && t in sys.threads && sys'.threads == sys.threads[t := pc'] && sys'.flock == sys.flock &&
      sys'.hash == sys.hash
    requires HasHash(pc') == HasHash(sys.threads[t]) && LockedBy(pc') == LockedBy(sys.threads[t]) && sys'.mem == sys.mem
    requires !Limbo(sys.threads[t]) && PcInv(sys.mem, sys.flock, t, pc')
    ensures Inv(sys')
  {
    hide Inv, MemInv, LimboInv, PcInv, Others, LockedBy, HasHash, LockInv, Limbo;
    InvOf(sys, t);
    LimboMove(sys, sys', t);
    Quiet(sys.mem, t, HasHash(sys.threads[t]), LockedBy(sys.threads[t]));
    MemStepInv(sys, sys', t, pc');
  }

  /** A new reference. */
  lemma {:induction false} IncInv(sys: Sys, sys': Sys, t: Tid, o: nat, pc': Pc)
    requires Inv(sys) && t in sys.threads && Tabled(sys.mem, o) && sys'.mem == IncMem(sys.mem, t, o)
    requires sys'.threads == sys.threads[t := pc'] && sys'.flock == sys.flock && sys'.hash == sys.hash
    requires LockedBy(sys.threads[t]) == {o} && LockedBy(pc') == {o} && HasHash(pc') == HasHash(sys.threads[t])
    requires !Limbo(sys.threads[t]) && (pc' == HoldUnlock(o) || pc' == FindUnlock(o))
    ensures Inv(sys')
  {
    hide Inv, MemInv, LimboInv, Others, LockedBy, HasHash, LockInv, Limbo, Abs;
    InvOf(sys, t);
    IncAbs(sys.mem, t, o);
    CountKeeps(sys.mem, sys'.mem, t, o, HasHash(sys.threads[t]), 1);
    LimboMove(sys, sys', t);
    MemStepInv(sys, sys', t, pc');
  }

  /** A reference given up that was not the last. */
  lemma {:induction false} DecInv(sys: Sys, sys': Sys, t: Tid, o: nat, pc': Pc)
    requires Inv(sys) && t in sys.threads && Tabled(sys.mem, o) && Token(sys.mem, t, o) && FooAt(sys.mem, o).count != 1
    requires sys'.mem == DecMem(sys.mem, t, o)
    requires sys'.threads == sys.threads[t := pc'] && sys'.flock == sys.flock && sys'.hash == sys.hash
    requires LockedBy(sys.threads[t]) == {o} && LockedBy(pc') == {o} && HasHash(pc') == HasHash(sys.threads[t])
    requires !Limbo(sys.threads[t]) && (pc' == ReleUnlock(o) || pc' == ReleUnlock2(o))
    ensures Inv(sys')
  {
    hide Inv, MemInv, LimboInv, Others, LockedBy, HasHash, LockInv, Limbo, Abs;
    InvOf(sys, t);
    DecAbs(sys.mem, t, o);
    CountKeeps(sys.mem, sys'.mem, t, o, HasHash(sys.threads[t]), -1);
    LimboMove(sys, sys', t);
    MemStepInv(sys, sys', t, pc');
  }

  lemma {:induction false} AllocNextInv(sys: Sys, sys': Sys, t: Tid, o: nat)
    requires Inv(sys) && t in sys.threads && sys.threads[t] == AllocNext(o)
    requires sys'.mem == NextMem(sys.mem, o, HeadAt(sys.mem, BucketOf(sys.mem, o)))
    requires sys'.threads == sys.threads[t := AllocHead(o)] && sys'.flock == sys.flock && sys'.hash == sys.hash
    ensures Inv(sys')
  {
    hide Inv, MemInv, LimboInv, Others, LockInv, Abs;
    InvOf(sys, t);
    NextKeeps(sys.mem, t, o, HeadAt(sys.mem, BucketOf(sys.mem, o)));
    LimboMove(sys, sys', t);
    MemStepInv(sys, sys', t, AllocHead(o));
  }

  lemma {:induction false} AllocHeadInv(sys: Sys, sys': Sys, t: Tid, o: nat)
    requires Inv(sys) && t in sys.threads && sys.threads[t] == AllocHead(o) && sys'.mem == LinkMem(sys.mem, o)
    requires sys'.threads == sys.threads[t := AllocLock(o)] && sys'.flock == sys.flock && sys'.hash == sys.hash
    ensures Inv(sys')
  {
    hide Inv, MemInv, Others, LockInv, Abs, BucketOf;
    InvOf(sys, t);
    LinkKeeps(sys.mem, t, o);
    LimboDrop(sys, sys', t, o);
    hide LimboInv;
    MemStepInv(sys, sys', t, AllocLock(o));
  }

  lemma LimboDrop(sys: Sys, sys': Sys, t: Tid, o: nat)
    requires LimboInv(sys) && MemInv(sys.mem) && t in sys.threads && Limbo(sys.threads[t]) && sys.threads[t].o == o
    requires sys'.mem == LinkMem(sys.mem, o) || sys'.mem == FreeMem(sys.mem, o)
    requires forall u :: u in sys.threads && u != t ==> u in sys'.threads && sys'.threads[u] == sys.threads[u]
    ensures LimboInv(sys')
  {
    TableSize(sys.mem);
    hide MemInv;
  }

  lemma LimboAdd(sys: Sys, sys': Sys, t: Tid, o: nat)
    requires LimboInv(sys) && sys'.mem.limbo == sys.mem.limbo[o := t] && (t in sys.threads ==> !Limbo(sys.threads[t]))
    requires forall u :: u in sys.threads && u != t ==> u in sys'.threads && sys'.threads[u] == sys.threads[u]
    requires t in sys'.threads && Limbo(sys'.threads[t]) && sys'.threads[t].o == o
    ensures LimboInv(sys')
  {
    hide Limbo;
  }

  /** The last reference: out of the table, into the hands of the releasing thread. */
  lemma {:induction false} UnlinkInv(sys: Sys, sys': Sys, t: Tid, o: nat, x: nat)
    requires Inv(sys) && t in sys.threads && (sys.threads[t] == ReleHead(o) || sys.threads[t] == ReleWalk(o, x))
    requires Precedes(sys.mem, o, x) && sys'.mem == UnlinkMem(sys.mem, t, o, x)
    requires sys'.threads == sys.threads[t := ReleUnhash(o)] && sys'.flock == sys.flock && sys'.hash == sys.hash
    ensures Inv(sys')
  {
    hide Inv, MemInv, LimboInv, Others, LockInv, Abs, Precedes, Before;
    InvOf(sys, t);
    TableSize(sys.mem);
    UnlinkKeeps(sys.mem, t, o, x);
    assert sys'.mem.limbo == sys.mem.limbo[o := t];
    LimboAdd(sys, sys', t, o);
    hide UnlinkMem;
    MemStepInv(sys, sys', t, ReleUnhash(o));
  }

  lemma {:induction false} FreeInv(sys: Sys, sys': Sys, t: Tid, o: nat)
    requires Inv(sys) && t in sys.threads && sys.threads[t] == ReleFree(o) && sys'.mem == FreeMem(sys.mem, o)
    requires sys'.threads == sys.threads - {t} && sys'.flock == sys.flock && sys'.hash == sys.hash
    ensures Inv(sys')
  {
    hide Inv, MemInv, Others, LockInv, Abs;
    InvOf(sys, t);
    FreeKeeps(sys.mem, t, o);
    LimboDrop(sys, sys', t, o);
    hide LimboInv;
    OneHeld(sys, t, ReleFree(o));
    LockChange(sys, sys', t);
    StepInv(sys, sys', t);
  }

  // ----- walking the bucket

  lemma NodeAt(mem: Mem, b: nat, i: nat)
    requires MemInv(mem) && b < NHASH
    ensures HeadAt(mem, b) == At(ListAt(mem, b), 0)
    ensures i < |ListAt(mem, b)| ==>
      var o := ListAt(mem, b)[i];
      o != 0 && Tabled(mem, o) && FooAt(mem, o).next == At(ListAt(mem, b), i + 1) &&
        IdOf(Abs(mem), o) == FooAt(mem, o).id
  {
    assert Linked(mem.fh, mem.heap, mem.lists[b], b);
    if i < |ListAt(mem, b)| {
      assert LinkAt(mem.heap, mem.lists[b], b, i);
      ListedTabled(mem, b, ListAt(mem, b)[i]);
    }
  }

  lemma {:induction false} FindTestPc(mem: Mem, flock: map<nat, Tid>, t: Tid, id: int, cur: nat)
    requires MemInv(mem) && PcInv(mem, flock, t, FindTest(id, cur))
    ensures cur == 0 ==> Found(Abs(mem), id) == 0
    ensures cur != 0 && FooAt(mem, cur).id == id ==> PcInv(mem, flock, t, FindLock(id, cur))
    ensures cur != 0 && FooAt(mem, cur).id != id ==> PcInv(mem, flock, t, FindTest(id, FooAt(mem, cur).next))
  {
    hide MemInv, Abs;
    var i: nat :| SearchAt(mem, id, cur, i);
    var c := ListAt(mem, Bucket(id));
    NodeAt(mem, Bucket(id), i);
    if cur != 0 && FooAt(mem, cur).id != id {
      assert SearchAt(mem, id, FooAt(mem, cur).next, i + 1);
    }
  }

  lemma FindHeadPc(mem: Mem, flock: map<nat, Tid>, t: Tid, id: int)
    requires MemInv(mem)
    ensures PcInv(mem, flock, t, FindTest(id, HeadAt(mem, Bucket(id))))
  {
    NodeAt(mem, Bucket(id), 0);
    TableSize(mem);
    hide MemInv;
    assert SearchAt(mem, id, HeadAt(mem, Bucket(id)), 0);
  }

  lemma TabledListed(mem: Mem, o: nat)
    requires MemInv(mem) && Tabled(mem, o)
    ensures o in ListAt(mem, BucketOf(mem, o))
    ensures IndexOf(ListAt(mem, BucketOf(mem, o)), o) < |ListAt(mem, BucketOf(mem, o))|
  {
    ObjIn(mem, o);
  }

  /** One step of a walk towards o: the next node is o, or still before it. */
  lemma Approach(mem: Mem, o: nat, i: nat)
    requires i < IndexOf(ListAt(mem, BucketOf(mem, o)), o) < |ListAt(mem, BucketOf(mem, o))|
    ensures var c := ListAt(mem, BucketOf(mem, o));
      if c[i + 1] == o then IndexOf(c, o) == i + 1 else Before(mem, o, c[i + 1], i + 1)
  {
  }

  lemma {:induction false} ReleHeadPc(mem: Mem, flock: map<nat, Tid>, t: Tid, o: nat)
    requires MemInv(mem) && Sole(mem, t, o) && Tabled(mem, o)
    ensures HeadAt(mem, BucketOf(mem, o)) == o ==> Precedes(mem, o, 0)
    ensures HeadAt(mem, BucketOf(mem, o)) != o ==> PcInv(mem, flock, t, ReleWalk(o, HeadAt(mem, BucketOf(mem, o))))
  {
    hide MemInv, Bucket;
    BucketRange(mem, o);
    TabledListed(mem, o);
    NodeAt(mem, BucketOf(mem, o), 0);
    if HeadAt(mem, BucketOf(mem, o)) != o {
      assert Before(mem, o, HeadAt(mem, BucketOf(mem, o)), 0);
    }
  }

  lemma {:induction false} ReleWalkPc(mem: Mem, flock: map<nat, Tid>, t: Tid, o: nat, x: nat)
    requires MemInv(mem) && PcInv(mem, flock, t, ReleWalk(o, x))
    ensures FooAt(mem, x).next == o ==> Precedes(mem, o, x)
    ensures FooAt(mem, x).next != o ==> PcInv(mem, flock, t, ReleWalk(o, FooAt(mem, x).next))
  {
    hide MemInv, Bucket;
    var i: nat :| Before(mem, o, x, i);
    BucketRange(mem, o);
    NodeAt(mem, BucketOf(mem, o), i);
    Approach(mem, o, i);
  }

  // ----- every step keeps the invariant

  lemma {:induction false} AllocStepInv(sys: Sys, t: Tid, pc: Pc)
    requires Inv(sys) && t in sys.threads && sys.threads[t] == pc && (pc.AllocNext? || pc.AllocHead?)
    ensures Inv(MemStep(sys, t, pc))
  {
    hide Inv, NextMem, LinkMem, HeadAt, BucketOf;
    if pc.AllocNext? {
      AllocNextInv(sys, MemStep(sys, t, pc), t, pc.o);
    } else {
      AllocHeadInv(sys, MemStep(sys, t, pc), t, pc.o);
    }
  }

  lemma {:induction false} HoldStepInv(sys: Sys, t: Tid, pc: Pc)
    requires Inv(sys) && t in sys.threads && sys.threads[t] == pc && pc.HoldInc?
    ensures Inv(MemStep(sys, t, pc))
  {
    hide Inv, IncMem, MemInv, LockInv, LimboInv;
    InvOf(sys, t);
    TokenTabled(sys, t, pc.o);
    IncInv(sys, MemStep(sys, t, pc), t, pc.o, HoldUnlock(pc.o));
  }

  lemma {:induction false} FindStepInv(sys: Sys, t: Tid, pc: Pc)
    requires Inv(sys) && t in sys.threads && sys.threads[t] == pc && (pc.FindHead? || pc.FindTest? || pc.FindInc?)
    ensures Inv(MemStep(sys, t, pc))
  {
    hide Inv, IncMem, MemInv, LockInv, LimboInv, HeadAt, Bucket, SearchAt, Abs, Found;
    var sys' := MemStep(sys, t, pc);
    InvOf(sys, t);
    if pc.FindHead? {
      FindHeadPc(sys.mem, sys.flock, t, pc.id);
      hide PcInv;
      ReadInv(sys, sys', t, FindTest(pc.id, HeadAt(sys.mem, Bucket(pc.id))));
    } else if pc.FindTest? {
      FindTestPc(sys.mem, sys.flock, t, pc.id, pc.cur);
      ReadInv(sys, sys', t, sys'.threads[t]);
    } else {
      IncInv(sys, sys', t, pc.o, FindUnlock(pc.o));
    }
  }

  lemma {:induction false} ReleCountInv(sys: Sys, t: Tid, pc: Pc)
    requires Inv(sys) && t in sys.threads && sys.threads[t] == pc && (pc.ReleTest? || pc.ReleRecheck?)
    ensures Inv(MemStep(sys, t, pc))
  {
    hide Inv, DecMem, MemInv, LockInv, LimboInv;
    var sys' := MemStep(sys, t, pc);
    InvOf(sys, t);
    TokenTabled(sys, t, pc.o);
    if FooAt(sys.mem, pc.o).count == 1 {
      OneRef(sys.mem, t, pc.o);
      ReadInv(sys, sys', t, sys'.threads[t]);
    } else {
      DecInv(sys, sys', t, pc.o, sys'.threads[t]);
    }
  }

  /** A count of 1 means that the caller's reference is the only one. */
  lemma OneRef(mem: Mem, t: Tid, o: nat)
    requires MemInv(mem) && Token(mem, t, o) && Tabled(mem, o) && FooAt(mem, o).count == 1
    ensures Sole(mem, t, o)
  {
    KeysMatch(mem);
    ObjIn(mem, o);
    hide MemInv;
    var r := RefsOf(mem, o);
    assert r == multiset{t} + (r - multiset{t});
    assert |r - multiset{t}| == 0;
  }

  lemma {:induction false} ReleUnlinkInv(sys: Sys, t: Tid, pc: Pc)
    requires Inv(sys) && t in sys.threads && sys.threads[t] == pc && (pc.ReleHead? || pc.ReleWalk?)
    ensures Inv(MemStep(sys, t, pc))
  {
    hide Inv, UnlinkMem, MemInv, LockInv, LimboInv, HeadAt, BucketOf, Before, Precedes, Sole, Tabled, FooAt;
    var sys' := MemStep(sys, t, pc);
    InvOf(sys, t);
    if pc.ReleHead? {
      ReleHeadPc(sys.mem, sys.flock, t, pc.o);
      hide PcInv;
      if HeadAt(sys.mem, BucketOf(sys.mem, pc.o)) == pc.o {
        UnlinkInv(sys, sys', t, pc.o, 0);
      } else {
        ReadInv(sys, sys', t, sys'.threads[t]);
      }
    } else {
      ReleWalkPc(sys.mem, sys.flock, t, pc.o, pc.x);
      hide PcInv;
      if FooAt(sys.mem, pc.x).next == pc.o {
        UnlinkInv(sys, sys', t, pc.o, pc.x);
      } else {
        ReadInv(sys, sys', t, sys'.threads[t]);
      }
    }
  }

  lemma {:induction false} ActInv(sys: Sys, t: Tid)
    requires Inv(sys) && Enabled(sys, t)
    ensures Inv(Act(sys, t))
  {
    hide Inv, LockStep, UnlockStep;
    var pc := sys.threads[t];
    if WaitsHash(pc) || WaitsLock(pc) {
      LockStepInv(sys, t, pc);
    } else if Unlocks(pc) {
      UnlockStepInv(sys, t, pc);
    } else {
      hide MemStep;
      match pc
      case AllocNext(_) => AllocStepInv(sys, t, pc);
      case AllocHead(_) => AllocStepInv(sys, t, pc);
      case HoldInc(_) => HoldStepInv(sys, t, pc);
      case FindHead(_) => FindStepInv(sys, t, pc);
      case FindTest(_, _) => FindStepInv(sys, t, pc);
      case FindInc(_, _) => FindStepInv(sys, t, pc);
      case ReleTest(_) => ReleCountInv(sys, t, pc);
      case ReleRecheck(_) => ReleCountInv(sys, t, pc);
      case ReleHead(_) => ReleUnlinkInv(sys, t, pc);
      case ReleWalk(_, _) => ReleUnlinkInv(sys, t, pc);
      case ReleFree(o) => ReleFreeInv(sys, t, pc);
    }
  }

  lemma ReleFreeInv(sys: Sys, t: Tid, pc: Pc)
    requires Inv(sys) && t in sys.threads && sys.threads[t] == pc && pc.ReleFree?
    ensures Inv(MemStep(sys, t, pc))
  {
    hide Inv, FreeMem;
    FreeInv(sys, MemStep(sys, t, pc), t, pc.o);
  }

  /** A thread entering an operation. */
  lemma {:induction false} CallInv(sys: Sys, sys': Sys, t: Tid, pc': Pc)
    requires Inv(sys) && t !in sys.threads && sys'.threads == sys.threads[t := pc'] && sys'.flock == sys.flock &&
      sys'.hash == sys.hash
    requires !HasHash(pc') && LockedBy(pc') == {} && LimboInv(sys')
    requires MemInv(sys'.mem) && Others(sys.mem, sys'.mem, t, false, {}) && PcInv(sys'.mem, sys.flock, t, pc')
    ensures Inv(sys')
  {
    hide Inv, MemInv, LimboInv, PcInv, Others, LockedBy, HasHash;
    InvOf(sys, t);
    LockChange(sys, sys', t);
    hide LockInv;
    StepInv(sys, sys', t);
  }

  lemma {:induction false} NewCallInv(sys: Sys, t: Tid, o: nat, id: int)
    requires Inv(sys) && Possible(sys, CallAlloc(t, o, id))
    ensures Inv(Next(sys, CallAlloc(t, o, id)))
  {
    hide Inv, MemInv, LimboInv, Others;
    var sys' := Next(sys, CallAlloc(t, o, id));
    InvOf(sys, t);
    NewKeeps(sys.mem, t, o, id);
    LimboAdd(sys, sys', t, o);
    CallInv(sys, sys', t, AllocHash(o));
  }

  lemma {:induction false} PlainCallInv(sys: Sys, e: Event)
    requires Inv(sys) && Possible(sys, e) && (e.CallHold? || e.CallFind? || e.CallRele?)
    ensures Inv(Next(sys, e))
  {
    hide Inv, MemInv, LimboInv, Others;
    var sys' := Next(sys, e);
    InvOf(sys, e.t);
    LimboMove(sys, sys', e.t);
    Quiet(sys.mem, e.t, false, {});
    CallInv(sys, sys', e.t, sys'.threads[e.t]);
  }

  lemma {:induction false} GiveInv(sys: Sys, t: Tid, u: Tid, o: nat)
    requires Inv(sys) && Possible(sys, Give(t, u, o))
    ensures Inv(Next(sys, Give(t, u, o)))
  {
    hide Inv, MemInv, LimboInv, Others, PcInv;
    var sys' := Next(sys, Give(t, u, o));
    InvOf(sys, t);
    TokenTabled(sys, t, o);
    GiveKeeps(sys.mem, t, u, o);
    LimboMove(sys, sys', t);
    StepInv(sys, sys', t);
  }

  lemma {:induction false} NextInv(sys: Sys, e: Event)
    requires Inv(sys) && Possible(sys, e)
    ensures Inv(Next(sys, e))
  {
    hide Inv, Act, Enabled;
    match e
    case CallAlloc(t, o, id) => NewCallInv(sys, t, o, id);
    case Give(t, u, o) => GiveInv(sys, t, u, o);
    case Run(t) => ActInv(sys, t);
    case _ => PlainCallInv(sys, e);
  }
}
