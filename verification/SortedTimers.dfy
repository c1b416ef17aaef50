/**
 * Timers in a doubly linked list kept in order of expiry. Memory is explicit:
 * address 0 is the null pointer, and a deleted timer is gone from memory.
 */
module SortedTimers {
  datatype Timer = Timer(expire: int, next: nat, prev: nat)

  type Memory = map<nat, Timer>

  function At(c: seq<nat>, i: int): nat { if 0 <= i < |c| then c[i] else 0 }

  function Expiry(mem: Memory, o: nat): int { if o in mem then mem[o].expire else 0 }

  predicate NodeAt(mem: Memory, c: seq<nat>, i: int) {
    0 <= i < |c| ==>
      c[i] != 0 && c[i] in mem && mem[c[i]].next == At(c, i + 1) && mem[c[i]].prev == At(c, i - 1)
  }

  predicate NoDup(c: seq<nat>) { forall i, j :: 0 <= i < j < |c| ==> c[i] != c[j] }

  ghost predicate Linked(head: nat, mem: Memory, c: seq<nat>) {
    head == At(c, 0) && NoDup(c) && 0 !in mem && forall i :: 0 <= i < |c| ==> NodeAt(mem, c, i)
  }

  predicate InOrder(mem: Memory, c: seq<nat>) {
    forall i, j :: 0 <= i < j < |c| ==> Expiry(mem, c[i]) <= Expiry(mem, c[j])
  }

  /** `tail` means something only while the list is not empty. */
  ghost predicate Listed(head: nat, tail: nat, mem: Memory, c: seq<nat>) {
    Linked(head, mem, c) && InOrder(mem, c) && (c != [] ==> tail == c[|c| - 1])
  }

  lemma LinkedIn(head: nat, mem: Memory, c: seq<nat>, i: nat)
    requires Linked(head, mem, c) && i < |c|
    ensures c[i] != 0 && c[i] in mem && mem[c[i]].next == At(c, i + 1) && mem[c[i]].prev == At(c, i - 1)
  {
    assert NodeAt(mem, c, i);
  }

  function Without(c: seq<nat>, i: nat): (r: seq<nat>)
    requires i < |c|
    ensures |r| == |c| - 1
  {
    c[..i] + c[i + 1..]
  }

  function Put(c: seq<nat>, p: nat, o: nat): (r: seq<nat>)
    requires p <= |c|
    ensures |r| == |c| + 1
  {
    c[..p] + [o] + c[p..]
  }

  function SetNext(mem: Memory, o: nat, v: nat): Memory { if o in mem then mem[o := mem[o].(next := v)] else mem }

  function SetPrev(mem: Memory, o: nat, v: nat): Memory { if o in mem then mem[o := mem[o].(prev := v)] else mem }

  // ----- taking out

  /** The neighbours of the i-th linked to each other. */
  function Bypass(mem: Memory, c: seq<nat>, i: nat): Memory {
    SetPrev(SetNext(mem, At(c, i - 1), At(c, i + 1)), At(c, i + 1), At(c, i - 1))
  }

  lemma {:induction false} BypassLinked(head: nat, mem: Memory, c: seq<nat>, i: nat)
    requires Linked(head, mem, c) && i < |c|
    ensures Linked(if i == 0 then At(c, 1) else head, Bypass(mem, c, i), Without(c, i))
    ensures forall o :: o in mem <==> o in Bypass(mem, c, i)
    ensures forall o :: o in mem ==> Bypass(mem, c, i)[o].expire == mem[o].expire
  {
    var mem', c' := Bypass(mem, c, i), Without(c, i);
    forall k | 0 <= k < |c'| ensures NodeAt(mem', c', k) {
      var n := if k < i then k else k + 1;
      LinkedIn(head, mem, c, n);
      assert c[n] == At(c, i - 1) <==> n == i - 1;
      assert c[n] == At(c, i + 1) <==> n == i + 1;
    }
  }

  /** Forgetting a timer outside the list. */
  lemma {:induction false} OutsideLinked(head: nat, mem: Memory, mem': Memory, c: seq<nat>)
    requires Linked(head, mem, c) && 0 !in mem' && forall o :: o in c ==> o in mem && o in mem' && mem'[o] == mem[o]
    ensures Linked(head, mem', c)
  {
    forall k | 0 <= k < |c| ensures NodeAt(mem', c, k) {
      LinkedIn(head, mem, c, k);
      assert c[k] in c;
    }
  }

  lemma WithoutLacks(c: seq<nat>, i: nat, o: nat)
    requires NoDup(c) && i < |c|
    ensures o in Without(c, i) <==> o in c && o != c[i]
  {
    if o in c && o != c[i] {
      var k: nat :| k < |c| && c[k] == o;
      assert Without(c, i)[if k < i then k else k - 1] == o;
    }
  }

  lemma {:induction false} WithoutOrdered(mem: Memory, mem': Memory, c: seq<nat>, i: nat)
    requires InOrder(mem, c) && i < |c| && forall o :: o in Without(c, i) ==> Expiry(mem', o) == Expiry(mem, o)
    ensures InOrder(mem', Without(c, i))
  {
    var c' := Without(c, i);
    forall a, b | 0 <= a < b < |c'| ensures Expiry(mem', c'[a]) <= Expiry(mem', c'[b]) {
      assert c'[a] in c' && c'[b] in c';
      var a', b' := if a < i then a else a + 1, if b < i then b else b + 1;
      assert c'[a] == c[a'] && c'[b] == c[b'];
    }
  }

  // ----- putting in

  /** o between the p-1st and the p-th. */
  function Between(mem: Memory, c: seq<nat>, p: nat, o: nat): Memory {
    var mem1 := SetPrev(SetNext(mem, At(c, p - 1), o), At(c, p), o);
    mem1[o := Timer(Expiry(mem, o), At(c, p), At(c, p - 1))]
  }

  lemma {:induction false} PutNoDup(c: seq<nat>, p: nat, o: nat)
    requires NoDup(c) && p <= |c| && o !in c
    ensures NoDup(Put(c, p, o))
  {
    var c' := Put(c, p, o);
    forall a, b | 0 <= a < b < |c'| ensures c'[a] != c'[b] {
      assert a != p ==> c'[a] == c[if a < p then a else a - 1] && c'[a] in c;
      assert b != p ==> c'[b] == c[if b < p then b else b - 1] && c'[b] in c;
    }
  }

  lemma BetweenAt(mem: Memory, c: seq<nat>, p: nat, o: nat, x: nat)
    requires p <= |c| && o in mem && 0 !in mem && x in mem && x != o
    ensures var mem' := Between(mem, c, p, o);
      && x in mem' && mem'[x].expire == mem[x].expire
      && mem'[x].next == (if x == At(c, p - 1) then o else mem[x].next)
      && mem'[x].prev == (if x == At(c, p) then o else mem[x].prev)
  {
  }

  lemma {:induction false} BetweenNode(head: nat, mem: Memory, c: seq<nat>, p: nat, o: nat, k: nat)
    requires Linked(head, mem, c) && p <= |c| && o in mem && o !in c && k <= |c|
    ensures NodeAt(Between(mem, c, p, o), Put(c, p, o), k)
  {
    if k != p {
      var n := if k < p then k else k - 1;
      LinkedIn(head, mem, c, n);
      assert c[n] in c;
      BetweenAt(mem, c, p, o, c[n]);
      hide Between;
      assert c[n] == At(c, p - 1) <==> n == p - 1;
      assert c[n] == At(c, p) <==> n == p;
      assert Put(c, p, o)[k] == c[n];
    }
  }

  lemma {:induction false} BetweenLinked(head: nat, mem: Memory, c: seq<nat>, p: nat, o: nat)
    requires Linked(head, mem, c) && p <= |c| && o in mem && o !in c
    ensures Linked(if p == 0 then o else head, Between(mem, c, p, o), Put(c, p, o))
    ensures Between(mem, c, p, o).Keys == mem.Keys
    ensures forall x :: x in mem ==> Between(mem, c, p, o)[x].expire == mem[x].expire
  {
    var mem', c' := Between(mem, c, p, o), Put(c, p, o);
    PutNoDup(c, p, o);
    assert mem'.Keys == mem.Keys;
    hide NodeAt, NoDup;
    forall k | 0 <= k < |c'| ensures NodeAt(mem', c', k) {
      BetweenNode(head, mem, c, p, o, k);
    }
  }

  /** p is the place of expiry e: nothing before it is later, everything from it on is. */
  predicate PlaceOf(mem: Memory, c: seq<nat>, p: nat, e: int) {
    && p <= |c| && (forall i :: 0 <= i < p ==> Expiry(mem, c[i]) <= e) &&
      (forall i :: p <= i < |c| ==> e < Expiry(mem, c[i]))
  }

  lemma {:induction false} PutOrdered(mem: Memory, mem': Memory, c: seq<nat>, p: nat, o: nat)
    requires InOrder(mem, c) && PlaceOf(mem, c, p, Expiry(mem, o))
    requires forall x :: x in c || x == o ==> Expiry(mem', x) == Expiry(mem, x)
    ensures InOrder(mem', Put(c, p, o))
  {
    var c' := Put(c, p, o);
    forall a, b | 0 <= a < b < |c'| ensures Expiry(mem', c'[a]) <= Expiry(mem', c'[b]) {
      if a != p {
        assert c'[a] == c[if a < p then a else a - 1] && c'[a] in c;
      }
      if b != p {
        assert c'[b] == c[if b < p then b else b - 1] && c'[b] in c;
      }
    }
  }

  function IndexOf(c: seq<nat>, o: nat): (i: nat)
    ensures i <= |c| && (o in c ==> i < |c| && c[i] == o)
  {
    if c == [] || c[0] == o then 0 else 1 + IndexOf(c[1..], o)
  }

  /** The timers due, which are the first ones. */
  function DueCount(mem: Memory, c: seq<nat>, now: int): (n: nat)
    ensures n <= |c|
  {
    if c == [] || now < Expiry(mem, c[0]) then 0 else 1 + DueCount(mem, c[1..], now)
  }

  class TimerList {
    var head: nat
    var tail: nat
    var mem: Memory
    ghost var list: seq<nat>

    ghost predicate Valid()
      reads this
    {
      Listed(head, tail, mem, list)
    }

    constructor ()
      ensures Valid() && list == [] && mem == map[]
    {
      head, tail, mem, list := 0, 0, map[], [];
    }

    /** The loop: from `from`, the j-th, on to the first that expires later. */
    method FindPlace(o: nat, from: nat, ghost j: nat) returns (prev: nat, tmp: nat, ghost p: nat)
      requires Linked(head, mem, list) && InOrder(mem, list) && j < |list| && list[j] == from && o in mem
      requires Expiry(mem, list[j]) <= Expiry(mem, o)
      ensures 1 <= p <= |list| && PlaceOf(mem, list, p, Expiry(mem, o)) && prev == list[p - 1] && tmp == At(list, p)
    {
      hide Linked, NoDup;
      p := j + 1;
      prev := from;
      LinkedIn(head, mem, list, j);
      tmp := mem[prev].next;
      while tmp != 0
        invariant 1 <= p <= |list| && prev == list[p - 1] && tmp == At(list, p) &&
          Expiry(mem, list[p - 1]) <= Expiry(mem, o)
        decreases |list| - p
      {
        LinkedIn(head, mem, list, p);
        if mem[o].expire < mem[tmp].expire {
          break;
        }
        p := p + 1;
        prev := tmp;
        tmp := mem[tmp].next;
      }
      NonNull(head, mem, list, p);
      PlaceFound(mem, list, p, Expiry(mem, o));
    }

    /** Link o between prev and tmp, the p-th; at the end if tmp is null. */
    method LinkBetween(o: nat, prev: nat, tmp: nat, ghost p: nat)
      requires Linked(head, mem, list) && InOrder(mem, list) && list != [] && tail == list[|list| - 1] && o in mem &&
        o !in list
      requires 1 <= p <= |list| && PlaceOf(mem, list, p, Expiry(mem, o)) && prev == list[p - 1] && tmp == At(list, p)
      modifies this
      ensures Valid() && list == Put(old(list), p, o)
      ensures mem.Keys == old(mem.Keys) && forall x :: x in mem ==> mem[x].expire == old(mem)[x].expire
    {
      hide Linked, NoDup, PlaceOf;
      ghost var mem0, c := mem, list;
      NonNull(head, mem, c, p);
      LinkedIn(head, mem, c, p - 1);
      BetweenLinked(head, mem, c, p, o);
      PutOrdered(mem, Between(mem, c, p, o), c, p, o);
      assert prev in c;
      if tmp != 0 {
        LinkedIn(head, mem, c, p);
        assert tmp in c;
        mem := mem[prev := mem[prev].(next := o)];
        mem := mem[o := mem[o].(next := tmp)];
        mem := mem[tmp := mem[tmp].(prev := o)];
        mem := mem[o := mem[o].(prev := prev)];
      } else {
        mem := mem[prev := mem[prev].(next := o)];
        mem := mem[o := mem[o].(prev := prev, next := 0)];
        tail := o;
      }
      assert mem == Between(mem0, c, p, o);
      list := Put(c, p, o);
    }

    method InsertAfter(o: nat, from: nat, ghost j: nat)
      requires Linked(head, mem, list) && InOrder(mem, list) && j < |list| && list[j] == from &&
        tail == list[|list| - 1]
      requires o in mem && o !in list && Expiry(mem, list[j]) <= Expiry(mem, o)
      modifies this
      ensures Valid() && mem.Keys == old(mem.Keys) && forall x :: x in mem ==> mem[x].expire == old(mem)[x].expire
      ensures exists p: nat :: PlaceOf(old(mem), old(list), p, Expiry(mem, o)) && list == Put(old(list), p, o)
    {
      hide Linked, PlaceOf;
      var prev, tmp, p := FindPlace(o, from, j);
      assert PlaceOf(mem, list, p, Expiry(mem, o));
      LinkBetween(o, prev, tmp, p);
    }

    /** A new timer, allocated and not in the list. */
    method AddTimer(o: nat)
      requires Valid() && (o == 0 || (o in mem && o !in list && mem[o].next == 0 && mem[o].prev == 0))
      modifies this
      ensures Valid() && mem.Keys == old(mem.Keys) && forall x :: x in mem ==> mem[x].expire == old(mem)[x].expire
      ensures o == 0 ==> list == old(list)
      ensures o != 0 ==> exists p: nat ::
        PlaceOf(old(mem), old(list), p, Expiry(mem, o)) && list == Put(old(list), p, o)
    {
      if o == 0 {
        return;
      }
      ghost var c := list;
      if head == 0 {
        EmptyList(head, mem, c);
        assert PlaceOf(mem, c, 0, Expiry(mem, o)) && Put(c, 0, o) == [o];
        head, tail := o, o;
        list := [o];
        return;
      }
      assert c != [];
      LinkedIn(head, mem, c, 0);
      if mem[o].expire < mem[head].expire {
        assert PlaceOf(mem, c, 0, Expiry(mem, o));
        hide Linked, NoDup;
        BetweenLinked(head, mem, c, 0, o);
        PutOrdered(mem, Between(mem, c, 0, o), c, 0, o);
        ghost var mem0 := mem;
        mem := mem[o := mem[o].(next := head)];
        mem := mem[head := mem[head].(prev := o)];
        assert mem == Between(mem0, c, 0, o);
        list := Put(c, 0, o);
        head := o;
        return;
      }
      InsertAfter(o, head, 0);
    }

    /**
     * adjust_timer after the caller has changed the expiry: out of the list and
     * in again further on, unless it is still before the next one. It never
     * moves a timer forward, so the order is kept exactly when the timer before
     * it is still no later.
     */
    method Adjust(o: nat, expire: int)
      requires Valid() && o in list && o in mem
      modifies this
      ensures Linked(head, mem, list) && (list != [] ==> tail == list[|list| - 1])
      ensures mem.Keys == old(mem.Keys) && mem[o].expire == expire
      ensures forall x :: x in mem && x != o ==> mem[x].expire == old(mem)[x].expire
      ensures |list| == |old(list)| && forall x :: x in list <==> x in old(list)
      ensures InOrder(mem, list) <==> KeepsPlace(old(mem), old(list), IndexOf(old(list), o), expire)
      ensures IndexOf(old(list), o) + 1 == |old(list)| ==> list == old(list)
    {
      hide Linked, NoDup, InOrder, NodeAt, Bypass;
      ghost var i, c, mem0 := IndexOf(list, o), list, mem;
      SameLinks(head, mem, c, i, expire);
      mem := mem[o := mem[o].(expire := expire)];
      var tmp := mem[o].next;
      LinkedIn(head, mem, c, i);
      NonNull(head, mem, c, i + 1);
      LinkedNoDup(head, mem, c);
      if tmp == 0 {
        StillOrdered(mem0, mem, c, i);
        return;
      }
      LinkedIn(head, mem, c, i + 1);
      if mem[o].expire < mem[tmp].expire {
        StillOrdered(mem0, mem, c, i);
        return;
      }
      MovesBack(mem0, mem, c, i);
      TakeOut(o, i, mem0);
      AfterRemoval(c, i);
      InsertAfter(o, tmp, i);
      forall x ensures x in list <==> x in c {
        LinkedNoDup(old(head), mem0, c);
        WithoutLacks(c, i, x);
        PutMembers(list, Without(c, i), o, x);
      }
    }

    /** Unlink the i-th, which has a successor, and keep it allocated. */
    method TakeOut(o: nat, ghost i: nat, ghost mem0: Memory)
      requires Linked(head, mem, list) && i + 1 < |list| && list[i] == o && tail == list[|list| - 1] &&
        InOrder(mem0, list)
      requires forall x :: x in mem && x != o ==> Expiry(mem, x) == Expiry(mem0, x)
      modifies this`head, this`mem, this`list
      ensures list == Without(old(list), i) && Linked(head, mem, list) && InOrder(mem, list) && o !in list
      ensures mem.Keys == old(mem.Keys) && forall x :: x in mem ==> mem[x].expire == old(mem)[x].expire
    {
      hide Linked, NoDup, InOrder, NodeAt;
      ghost var c, mem1 := list, mem;
      LinkedIn(head, mem, c, i);
      LinkedIn(head, mem, c, i + 1);
      HeadIs(head, mem, c, i);
      BypassLinked(head, mem, c, i);
      NonNull(head, mem, c, i);
      LinkedNoDup(head, mem, c);
      forall x ensures x in Without(c, i) <==> x in c && x != o {
        WithoutLacks(c, i, x);
      }
      AllIn(head, mem, c);
      if o == head {
        head := mem[head].next;
        mem := mem[head := mem[head].(prev := 0)];
        assert mem == Bypass(mem1, c, i);
        ghost var mem2 := mem;
        mem := mem[o := mem[o].(next := 0)];
        OutsideLinked(head, mem2, mem, Without(c, i));
      } else {
        LinkedIn(head, mem, c, i - 1);
        var prev, next := mem[o].prev, mem[o].next;
        mem := mem[prev := mem[prev].(next := next)];
        mem := mem[next := mem[next].(prev := prev)];
        assert mem == Bypass(mem1, c, i);
      }
      WithoutOrdered(mem0, mem, c, i);
      list := Without(c, i);
    }

    method DelTimer(o: nat)
      requires Valid() && (o == 0 || o in list)
      modifies this
      ensures Valid() && mem.Keys == old(mem.Keys) - {o} && forall x :: x in mem ==> mem[x].expire == old(mem)[x].expire
      ensures o == 0 ==> list == old(list)
      ensures o != 0 ==> IndexOf(old(list), o) < |old(list)| && list == Without(old(list), IndexOf(old(list), o))
    {
      hide Linked, NoDup, InOrder, NodeAt;
      ghost var c, mem0, i := list, mem, IndexOf(list, o);
      NonNull(head, mem, c, 0);
      if o == 0 {
        return;
      }
      LinkedIn(head, mem, c, i);
      HeadIs(head, mem, c, i);
      LastIs(head, mem, c, i);
      Removed(head, mem, c, i);
      if o == head && o == tail {
        head, tail := 0, 0;
      } else if o == head {
        LinkedIn(head, mem, c, 1);
        head := mem[head].next;
        mem := mem[head := mem[head].(prev := 0)];
      } else if o == tail {
        LinkedIn(head, mem, c, i - 1);
        tail := mem[tail].prev;
        mem := mem[tail := mem[tail].(next := 0)];
      } else {
        LinkedIn(head, mem, c, i - 1);
        LinkedIn(head, mem, c, i + 1);
        var prev, next := mem[o].prev, mem[o].next;
        mem := mem[prev := mem[prev].(next := next)];
        mem := mem[next := mem[next].(prev := prev)];
      }
      assert mem == Bypass(mem0, c, i);
      mem := mem - {o};
      list := Without(c, i);
    }

    /** Take off and delete the head. */
    method DropHead()
      requires Valid() && list != []
      modifies this
      ensures Valid() && list == old(list)[1..] && head == At(old(list), 1) &&
        mem.Keys == old(mem.Keys) - {old(list)[0]}
      ensures forall x :: x in mem ==> mem[x].expire == old(mem)[x].expire
    {
      hide Linked, NoDup, InOrder, NodeAt;
      ghost var c, mem0 := list, mem;
      LinkedIn(head, mem, c, 0);
      HeadIs(head, mem, c, 0);
      NonNull(head, mem, c, 1);
      Removed(head, mem, c, 0);
      var tmp := head;
      head := mem[tmp].next;
      if head != 0 {
        LinkedIn(c[0], mem, c, 1);
        mem := mem[head := mem[head].(prev := 0)];
      }
      assert mem == Bypass(mem0, c, 0);
      mem := mem - {tmp};
      assert Without(c, 0) == c[1..];
      list := c[1..];
    }

    /** Fire and delete the timers due; they are the first ones, and no others. */
    method Tick(now: int) returns (fired: seq<nat>)
      requires Valid()
      modifies this
      ensures Valid() && fired + list == old(list) && |fired| == DueCount(old(mem), old(list), now)
      ensures mem.Keys == old(mem.Keys) - (set o | o in fired)
      ensures forall x :: x in mem ==> mem[x].expire == old(mem)[x].expire
    {
      hide Linked, NoDup, InOrder, NodeAt;
      ghost var c, mem0 := list, mem;
      fired := [];
      NonNull(head, mem, list, 0);
      HeadAt(head, mem, list);
      while head != 0
        invariant Valid() && fired + list == c && head == At(list, 0) && (head == 0 <==> list == [])
        invariant |fired| + DueCount(mem0, list, now) == DueCount(mem0, c, now)
        invariant mem.Keys == mem0.Keys - (set o | o in fired)
        invariant forall x :: x in mem ==> mem[x].expire == mem0[x].expire
        decreases |list|
      {
        LinkedIn(head, mem, list, 0);
        if now < mem[head].expire {
          break;
        }
        fired := fired + [head];
        DropHead();
        NonNull(head, mem, list, 0);
      }
    }
  }

  /** The list and the memory without the i-th. */
  lemma {:induction false} Removed(head: nat, mem: Memory, c: seq<nat>, i: nat)
    requires Linked(head, mem, c) && InOrder(mem, c) && i < |c|
    ensures var mem' := Bypass(mem, c, i) - {c[i]};
      && Linked(if i == 0 then At(c, 1) else head, mem', Without(c, i)) && InOrder(mem', Without(c, i))
      && mem'.Keys == mem.Keys - {c[i]} && forall x :: x in mem' ==> mem'[x].expire == mem[x].expire
  {
    hide Linked, InOrder, NodeAt, Bypass, NoDup;
    var mem1 := Bypass(mem, c, i);
    BypassLinked(head, mem, c, i);
    LinkedNoDup(head, mem, c);
    AllIn(head, mem, c);
    forall x ensures x in Without(c, i) <==> x in c && x != c[i] {
      WithoutLacks(c, i, x);
    }
    NonNull(head, mem, c, i);
    OutsideLinked(if i == 0 then At(c, 1) else head, mem1, mem1 - {c[i]}, Without(c, i));
    WithoutOrdered(mem, mem1 - {c[i]}, c, i);
  }

  lemma {:induction false} SameLinks(head: nat, mem: Memory, c: seq<nat>, i: nat, e: int)
    requires Linked(head, mem, c) && i < |c|
    ensures c[i] in mem && Linked(head, mem[c[i] := mem[c[i]].(expire := e)], c)
  {
    LinkedIn(head, mem, c, i);
    var mem' := mem[c[i] := mem[c[i]].(expire := e)];
    forall k | 0 <= k < |c| ensures NodeAt(mem', c, k) {
      LinkedIn(head, mem, c, k);
    }
  }

  /** The timer before the i-th is no later than e. */
  predicate KeepsPlace(mem: Memory, c: seq<nat>, i: nat, e: int) {
    0 < i < |c| ==> Expiry(mem, c[i - 1]) <= e
  }

  lemma {:induction false} StillOrdered(mem0: Memory, mem: Memory, c: seq<nat>, i: nat)
    requires InOrder(mem0, c) && NoDup(c) && i < |c|
    requires forall x :: x in c && x != c[i] ==> Expiry(mem, x) == Expiry(mem0, x)
    requires i + 1 < |c| ==> Expiry(mem, c[i]) < Expiry(mem, c[i + 1])
    ensures InOrder(mem, c) <==> KeepsPlace(mem0, c, i, Expiry(mem, c[i]))
  {
    if i > 0 {
      assert c[i - 1] in c;
    }
    if KeepsPlace(mem0, c, i, Expiry(mem, c[i])) {
      forall a, b | 0 <= a < b < |c| ensures Expiry(mem, c[a]) <= Expiry(mem, c[b]) {
        assert c[a] in c && c[b] in c;
        if a == i && b > i + 1 {
          assert Expiry(mem0, c[i + 1]) <= Expiry(mem0, c[b]);
          assert c[i + 1] in c;
        }
        if b == i && a < i - 1 {
          assert Expiry(mem0, c[a]) <= Expiry(mem0, c[i - 1]);
        }
      }
    }
  }

  /** No earlier than the next one is no earlier than the one before. */
  lemma {:induction false} MovesBack(mem0: Memory, mem: Memory, c: seq<nat>, i: nat)
    requires InOrder(mem0, c) && NoDup(c) && i + 1 < |c|
    requires forall x :: x in c && x != c[i] ==> Expiry(mem, x) == Expiry(mem0, x)
    requires Expiry(mem, c[i + 1]) <= Expiry(mem, c[i])
    ensures KeepsPlace(mem0, c, i, Expiry(mem, c[i]))
  {
    assert c[i + 1] in c;
    if i > 0 {
      assert Expiry(mem0, c[i - 1]) <= Expiry(mem0, c[i + 1]);
    }
  }

  /** The timers due are those that have expired, all of them and no others. */
  lemma {:induction false} DueArePast(mem: Memory, c: seq<nat>, now: int, i: nat)
    requires InOrder(mem, c) && i < |c|
    ensures i < DueCount(mem, c, now) <==> Expiry(mem, c[i]) <= now
  {
    if now >= Expiry(mem, c[0]) && i > 0 {
      assert InOrder(mem, c[1..]);
      DueArePast(mem, c[1..], now, i - 1);
    }
  }

  lemma HeadIs(head: nat, mem: Memory, c: seq<nat>, i: nat)
    requires Linked(head, mem, c) && i < |c|
    ensures head == c[0] && (c[i] == head <==> i == 0)
  {
  }

  lemma HeadAt(head: nat, mem: Memory, c: seq<nat>)
    requires Linked(head, mem, c)
    ensures head == At(c, 0)
  {
  }

  lemma LastIs(head: nat, mem: Memory, c: seq<nat>, i: nat)
    requires Linked(head, mem, c) && i < |c|
    ensures c[i] == c[|c| - 1] <==> i == |c| - 1
  {
  }

  lemma LinkedNoDup(head: nat, mem: Memory, c: seq<nat>)
    requires Linked(head, mem, c)
    ensures NoDup(c)
  {
  }

  lemma AllIn(head: nat, mem: Memory, c: seq<nat>)
    requires Linked(head, mem, c)
    ensures forall x :: x in c ==> x in mem
  {
    forall x | x in c ensures x in mem {
      LinkedIn(head, mem, c, IndexOf(c, x));
    }
  }

  lemma AfterRemoval(c: seq<nat>, i: nat)
    requires i + 1 < |c|
    ensures Without(c, i)[i] == c[i + 1] && Without(c, i)[|c| - 2] == c[|c| - 1]
  {
  }

  lemma PutMembers(r: seq<nat>, c: seq<nat>, o: nat, x: nat)
    requires exists p: nat :: p <= |c| && r == Put(c, p, o)
    ensures x in r <==> x in c || x == o
  {
    var p: nat :| p <= |c| && r == Put(c, p, o);
    assert c == c[..p] + c[p..];
  }

  lemma EmptyList(head: nat, mem: Memory, c: seq<nat>)
    requires Linked(head, mem, c) && head == 0
    ensures c == []
  {
    if c != [] {
      LinkedIn(head, mem, c, 0);
    }
  }

  lemma NonNull(head: nat, mem: Memory, c: seq<nat>, p: nat)
    requires Linked(head, mem, c) && p <= |c|
    ensures (At(c, p) == 0 <==> p == |c|) && 0 !in mem
  {
    if p < |c| {
      LinkedIn(head, mem, c, p);
    }
  }

  lemma PlaceFound(mem: Memory, c: seq<nat>, p: nat, e: int)
    requires InOrder(mem, c) && 1 <= p <= |c| && Expiry(mem, c[p - 1]) <= e && (p < |c| ==> e < Expiry(mem, c[p]))
    ensures PlaceOf(mem, c, p, e)
  {
  }
}
