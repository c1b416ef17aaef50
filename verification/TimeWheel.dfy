/**
 * The timing wheel: N slots, each a doubly linked list of timers with a count
 * of full turns still to go. Memory is explicit, so that a timer that has been
 * deleted can be seen not to be touched again; address 0 is the null pointer.
 */
module TimeWheel {
  const N: nat := 60
  const TI: nat := 1

  datatype Timer = Timer(rotation: int, slot: nat, next: nat, prev: nat)

  type Memory = map<nat, Timer>

  function At(c: seq<nat>, i: int): nat { if 0 <= i < |c| then c[i] else 0 }

  function Load(mem: Memory, o: nat): Timer { if o in mem then mem[o] else Timer(0, 0, 0, 0) }

  predicate NodeAt(mem: Memory, c: seq<nat>, b: nat, i: int) {
    0 <= i < |c| ==>
      && c[i] != 0 && c[i] in mem && mem[c[i]].slot == b && mem[c[i]].rotation >= 0
      && mem[c[i]].next == At(c, i + 1) && mem[c[i]].prev == At(c, i - 1)
  }

  predicate NoDup(c: seq<nat>) { forall i, j :: 0 <= i < j < |c| ==> c[i] != c[j] }

  predicate NoNulls(c: seq<nat>) { forall i :: 0 <= i < |c| ==> c[i] != 0 }

  /** A slot's list, from its head pointer, linked both ways. */
  ghost predicate Linked(head: nat, mem: Memory, c: seq<nat>, b: nat) {
    head == At(c, 0) && NoDup(c) && forall i :: 0 <= i < |c| ==> NodeAt(mem, c, b, i)
  }

  function Without(c: seq<nat>, i: nat): (r: seq<nat>)
    requires i < |c|
    ensures |r| == |c| - 1
  {
    c[..i] + c[i + 1..]
  }

  // ----- linking and unlinking, as both tick and del_timer do it

  function SetPrev(mem: Memory, o: nat, v: nat): Memory { if o in mem then mem[o := mem[o].(prev := v)] else mem }

  function SetNext(mem: Memory, o: nat, v: nat): Memory { if o in mem then mem[o := mem[o].(next := v)] else mem }

  /** The head and the memory after o is taken out of its list and deleted. */
  function Unlinked(head: nat, mem: Memory, o: nat): (nat, Memory) {
    var t := Load(mem, o);
    if o == head then (t.next, (if t.next != 0 then SetPrev(mem, t.next, 0) else mem) - {o})
    else
      var mem1 := SetNext(mem, t.prev, t.next);
      (head, (if t.next != 0 then SetPrev(mem1, t.next, t.prev) else mem1) - {o})
  }

  lemma {:induction false} LinkedIn(head: nat, mem: Memory, c: seq<nat>, b: nat, i: nat)
    requires Linked(head, mem, c, b) && i < |c|
    ensures c[i] != 0 && c[i] in mem && mem[c[i]].slot == b && mem[c[i]].rotation >= 0
    ensures mem[c[i]].next == At(c, i + 1) && mem[c[i]].prev == At(c, i - 1)
  {
    assert NodeAt(mem, c, b, i);
  }

  /** Timer o with its pointers led past the i-th of the list. */
  function Bypassing(mem: Memory, c: seq<nat>, i: nat, o: nat): Timer {
    var t := Load(mem, o);
    t.(next := if o == At(c, i - 1) then At(c, i + 1) else t.next,
       prev := if o == At(c, i + 1) then At(c, i - 1) else t.prev)
  }

  /** Only the deleted timer goes; of the others only the pointers to it change. */
  lemma {:induction false} UnlinkFrame(head: nat, mem: Memory, c: seq<nat>, b: nat, i: nat)
    requires Linked(head, mem, c, b) && i < |c| && 0 !in mem
    ensures var (head', mem') := Unlinked(head, mem, c[i]);
      && mem'.Keys == mem.Keys - {c[i]} && head' == (if i == 0 then At(c, 1) else head)
      && forall o :: o in mem' ==> o in mem && mem'[o] == Bypassing(mem, c, i, o)
  {
    LinkedIn(head, mem, c, b, i);
    if i > 0 {
      LinkedIn(head, mem, c, b, i - 1);
      assert c[i] != head;
    }
    if i + 1 < |c| {
      LinkedIn(head, mem, c, b, i + 1);
    }
    hide Linked, NodeAt;
  }

  lemma {:induction false} UnlinkLinked(head: nat, mem: Memory, c: seq<nat>, b: nat, i: nat)
    requires Linked(head, mem, c, b) && i < |c| && 0 !in mem
    ensures var (head', mem') := Unlinked(head, mem, c[i]); Linked(head', mem', Without(c, i), b)
  {
    var (head', mem') := Unlinked(head, mem, c[i]);
    var c' := Without(c, i);
    UnlinkFrame(head, mem, c, b, i);
    forall k | 0 <= k < |c'| ensures NodeAt(mem', c', b, k) {
      var n := if k < i then k else k + 1;
      LinkedIn(head, mem, c, b, n);
      assert c[n] != c[i];
      assert c[n] == At(c, i - 1) <==> n == i - 1;
      assert c[n] == At(c, i + 1) <==> n == i + 1;
    }
  }

  /** The head and the memory after a new timer is put in front. */
  function Pushed(head: nat, mem: Memory, o: nat, rotation: int, b: nat): Memory {
    (if head != 0 then SetPrev(mem, head, o) else mem)[o := Timer(rotation, b, head, 0)]
  }

  lemma {:induction false} PushLinked(head: nat, mem: Memory, c: seq<nat>, b: nat, o: nat, rotation: nat)
    requires Linked(head, mem, c, b) && o !in mem && o != 0 && 0 !in mem
    ensures Linked(o, Pushed(head, mem, o, rotation, b), [o] + c, b)
  {
    var mem' := Pushed(head, mem, o, rotation, b);
    var c' := [o] + c;
    forall k | 0 <= k < |c'| ensures NodeAt(mem', c', b, k) && (k > 0 ==> c'[k] != o) {
      if k > 0 {
        LinkedIn(head, mem, c, b, k - 1);
      }
    }
  }

  /** Another slot's list is not disturbed by changes to timers of this slot. */
  lemma {:induction false} OtherSlot(head: nat, mem: Memory, mem': Memory, c: seq<nat>, a: nat)
    requires Linked(head, mem, c, a)
    requires forall o :: o in mem && mem[o].slot == a ==> o in mem' && mem'[o] == mem[o]
    ensures Linked(head, mem', c, a)
  {
    forall k | 0 <= k < |c| ensures NodeAt(mem', c, a, k) {
      LinkedIn(head, mem, c, a, k);
    }
  }

  // ----- the wheel

  /** Every timer in memory is on the list of its slot. */
  ghost predicate Wheeled(slots: seq<nat>, mem: Memory, cur: nat, lists: seq<seq<nat>>) {
    && |slots| == N && |lists| == N && cur < N && 0 !in mem
    && (forall b :: 0 <= b < N ==> Linked(slots[b], mem, lists[b], b))
    && (forall o :: o in mem ==> mem[o].slot < N && mem[o].rotation >= 0 && o in lists[mem[o].slot])
  }

  /** On which tick from now the timer fires: 1 is the next one. */
  function Due(mem: Memory, cur: nat, o: nat): int {
    Load(mem, o).rotation * N + (Load(mem, o).slot - cur) % N + 1
  }

  function IndexOf(c: seq<nat>, o: nat): (i: nat)
    ensures i <= |c| && (o in c ==> i < |c| && c[i] == o)
  {
    if c == [] || c[0] == o then 0 else 1 + IndexOf(c[1..], o)
  }

  lemma SlotOf(slots: seq<nat>, mem: Memory, cur: nat, lists: seq<seq<nat>>, o: nat)
    requires Wheeled(slots, mem, cur, lists) && o in mem
    ensures var b := mem[o].slot;
      b < N && mem[o].rotation >= 0 && Linked(slots[b], mem, lists[b], b)
      && IndexOf(lists[b], o) < |lists[b]| && lists[b][IndexOf(lists[b], o)] == o
  {
    hide Linked;
  }

  lemma {:induction false} UnlinkWheeled(slots: seq<nat>, mem: Memory, cur: nat, lists: seq<seq<nat>>, o: nat)
    requires Wheeled(slots, mem, cur, lists) && o in mem
    ensures var b := mem[o].slot;
      b < N && IndexOf(lists[b], o) < |lists[b]|
      && var (head', mem') := Unlinked(slots[b], mem, o);
         Wheeled(slots[b := head'], mem', cur, lists[b := Without(lists[b], IndexOf(lists[b], o))])
         && mem'.Keys == mem.Keys - {o}
         && forall x :: x in mem' ==> mem'[x].slot == mem[x].slot && mem'[x].rotation == mem[x].rotation
  {
    SlotOf(slots, mem, cur, lists, o);
    var b := mem[o].slot;
    var c := lists[b];
    var i := IndexOf(c, o);
    var (head', mem') := Unlinked(slots[b], mem, o);
    UnlinkFrame(slots[b], mem, c, b, i);
    UnlinkLinked(slots[b], mem, c, b, i);
    hide Linked, Unlinked, NodeAt;
    forall a | 0 <= a < N && a != b ensures Linked(slots[a], mem', lists[a], a) {
      forall x | x in mem && mem[x].slot == a ensures x in mem' && mem'[x] == mem[x] {
        Neighbours(slots[b], mem, c, b, i, x);
      }
      OtherSlot(slots[a], mem, mem', lists[a], a);
    }
    forall x | x in mem' ensures x in lists[b := Without(c, i)][mem'[x].slot] {
      if mem[x].slot == b {
        var k := IndexOf(c, x);
        assert k != i && x == Without(c, i)[if k < i then k else k - 1];
      }
    }
  }

  lemma Neighbours(head: nat, mem: Memory, c: seq<nat>, b: nat, i: nat, x: nat)
    requires Linked(head, mem, c, b) && i < |c| && x in mem && 0 !in mem && mem[x].slot != b
    ensures x != At(c, i - 1) && x != At(c, i + 1) && x != c[i]
  {
    LinkedIn(head, mem, c, b, i);
    if i > 0 {
      LinkedIn(head, mem, c, b, i - 1);
    }
    if i + 1 < |c| {
      LinkedIn(head, mem, c, b, i + 1);
    }
  }

  lemma {:induction false} PushWheeled(slots: seq<nat>, mem: Memory, cur: nat, lists: seq<seq<nat>>, o: nat,
      rotation: nat, b: nat)
    requires Wheeled(slots, mem, cur, lists) && o !in mem && o != 0 && b < N
    ensures var mem' := Pushed(slots[b], mem, o, rotation, b);
      && Wheeled(slots[b := o], mem', cur, lists[b := [o] + lists[b]])
      && mem'.Keys == mem.Keys + {o} && mem'[o].rotation == rotation && mem'[o].slot == b
      && forall x :: x in mem ==> mem'[x].slot == mem[x].slot && mem'[x].rotation == mem[x].rotation
  {
    var head, c := slots[b], lists[b];
    var mem' := Pushed(head, mem, o, rotation, b);
    assert Linked(head, mem, c, b);
    PushLinked(head, mem, c, b, o, rotation);
    if c != [] {
      LinkedIn(head, mem, c, b, 0);
    }
    hide Linked, NodeAt;
    forall a | 0 <= a < N && a != b ensures Linked(slots[a], mem', lists[a], a) {
      OtherSlot(slots[a], mem, mem', lists[a], a);
    }
  }

  lemma {:induction false} TurnWheeled(slots: seq<nat>, mem: Memory, cur: nat, lists: seq<seq<nat>>, o: nat)
    requires Wheeled(slots, mem, cur, lists) && o in mem && mem[o].rotation > 0
    ensures Wheeled(slots, mem[o := mem[o].(rotation := mem[o].rotation - 1)], cur, lists)
  {
    var mem' := mem[o := mem[o].(rotation := mem[o].rotation - 1)];
    hide Linked;
    forall b | 0 <= b < N ensures Linked(slots[b], mem', lists[b], b) {
      forall x | x in lists[b] ensures x in mem && mem[x].rotation >= 0 {
        LinkedIn(slots[b], mem, lists[b], b, IndexOf(lists[b], x));
      }
      SameLinks(slots[b], mem, mem', lists[b], b);
    }
  }

  lemma {:induction false} SameLinks(head: nat, mem: Memory, mem': Memory, c: seq<nat>, b: nat)
    requires Linked(head, mem, c, b)
    requires forall o :: o in c ==>
      o in mem && o in mem' && mem'[o].rotation >= 0 && mem'[o] == mem[o].(rotation := mem'[o].rotation)
    ensures Linked(head, mem', c, b)
  {
    forall k | 0 <= k < |c| ensures NodeAt(mem', c, b, k) {
      LinkedIn(head, mem, c, b, k);
    }
  }

  /** How far a tick has come: the first n timers of its slot are done. */
  ghost predicate Ticked(mem0: Memory, mem: Memory, done: seq<nat>, fired: seq<nat>) {
    && mem.Keys <= mem0.Keys
    && (forall o :: o in mem0 ==> (o in mem <==> o !in fired))
    && (forall o :: o in fired ==> o in mem0 && o in done && mem0[o].rotation == 0)
    && (forall o :: o in mem ==> mem[o].slot == mem0[o].slot)
    && (forall o :: o in mem ==> mem[o].rotation == mem0[o].rotation - (if o in done then 1 else 0))
    && NoDup(fired)
  }

  lemma {:induction false} FiredTicked(mem0: Memory, mem: Memory, mem': Memory, done: seq<nat>, fired: seq<nat>, o: nat)
    requires Ticked(mem0, mem, done, fired) && o in mem && o !in done && mem[o].rotation == 0
    requires mem'.Keys == mem.Keys - {o}
    requires forall x :: x in mem' ==> mem'[x].slot == mem[x].slot && mem'[x].rotation == mem[x].rotation
    ensures Ticked(mem0, mem', done + [o], fired + [o])
  {
  }

  lemma {:induction false} TurnedTicked(mem0: Memory, mem: Memory, done: seq<nat>, fired: seq<nat>, o: nat)
    requires Ticked(mem0, mem, done, fired) && o in mem && o !in done && mem[o].rotation > 0
    ensures Ticked(mem0, mem[o := mem[o].(rotation := mem[o].rotation - 1)], done + [o], fired)
  {
  }

  lemma {:induction false} SlotMembers(slots: seq<nat>, mem: Memory, cur: nat, lists: seq<seq<nat>>, o: nat)
    requires Wheeled(slots, mem, cur, lists) && o in mem
    ensures mem[o].slot < N && mem[o].rotation >= 0 && (o in lists[cur] <==> mem[o].slot == cur)
  {
    if o in lists[cur] {
      LinkedIn(slots[cur], mem, lists[cur], cur, IndexOf(lists[cur], o));
    }
  }

  /** After the whole slot: exactly the timers due now have fired and all others are one tick nearer. */
  lemma {:induction false} TickedAll(slots: seq<nat>, mem0: Memory, mem: Memory, cur: nat, lists0: seq<seq<nat>>,
      fired: seq<nat>, o: nat)
    requires Wheeled(slots, mem0, cur, lists0) && Ticked(mem0, mem, lists0[cur], fired)
    requires forall o :: o in mem ==> mem[o].rotation >= 0
    ensures o in fired <==> o in mem0 && Due(mem0, cur, o) == 1
    ensures o in mem <==> o in mem0 && Due(mem0, cur, o) != 1
    ensures o in mem ==> Due(mem, (cur + 1) % N, o) == Due(mem0, cur, o) - 1
  {
    if o in mem0 {
      SlotMembers(slots, mem0, cur, lists0, o);
    }
  }

  lemma {:induction false} StandsAt(slots: seq<nat>, mem: Memory, cur: nat, lists: seq<seq<nat>>, i: nat)
    requires Wheeled(slots, mem, cur, lists) && i < |lists[cur]|
    ensures var c, o := lists[cur], lists[cur][i];
      && o != 0 && o in mem && mem[o].slot == cur && mem[o].rotation >= 0 && mem[o].next == At(c, i + 1)
      && IndexOf(c, o) == i && (o == slots[cur] <==> i == 0)
      && (i + 1 < |c| ==> c[i + 1] != 0)
  {
    var c := lists[cur];
    assert Linked(slots[cur], mem, c, cur);
    LinkedIn(slots[cur], mem, c, cur, i);
    if i + 1 < |c| {
      LinkedIn(slots[cur], mem, c, cur, i + 1);
    }
    assert IndexOf(c, c[i]) == i;
  }

  lemma WheelFacts(slots: seq<nat>, mem: Memory, cur: nat, lists: seq<seq<nat>>)
    requires Wheeled(slots, mem, cur, lists)
    ensures |slots| == N && |lists| == N && cur < N && 0 !in mem && NoDup(lists[cur]) && slots[cur] == At(lists[cur], 0)
    ensures forall o :: o in mem ==> mem[o].rotation >= 0 && mem[o].slot < N
    ensures NoNulls(lists[cur])
  {
    assert Linked(slots[cur], mem, lists[cur], cur);
    forall i | 0 <= i < |lists[cur]| ensures lists[cur][i] != 0 {
      LinkedIn(slots[cur], mem, lists[cur], cur, i);
    }
  }

  lemma FreshTicked(mem: Memory)
    ensures Ticked(mem, mem, [], [])
  {
  }

  lemma NotYetDone(c: seq<nat>, n: nat)
    requires NoDup(c) && n < |c|
    ensures c[n] !in c[..n] && c[..n + 1] == c[..n] + [c[n]] && c[n..] == [c[n]] + c[n + 1..]
  {
  }

  lemma AtTheFront(kept: seq<nat>, c0: seq<nat>, n: nat)
    requires n <= |c0| && At(c0, n) != 0
    ensures n < |c0| && |kept + c0[n..]| > |kept| && (kept + c0[n..])[|kept|] == c0[n] == At(c0, n)
    ensures At(kept + c0[n..], |kept| + 1) == At(c0, n + 1)
    ensures Without(kept + c0[n..], |kept|) == kept + c0[n + 1..]
    ensures kept + [c0[n]] + c0[n + 1..] == kept + c0[n..]
  {
  }

  lemma AtTheEnd(c0: seq<nat>, n: nat)
    requires n <= |c0| && At(c0, n) == 0 && NoNulls(c0)
    ensures n == |c0| && c0[..n] == c0
  {
  }

  class Wheel {
    var slots: seq<nat>
    var cur: nat
    var mem: Memory
    ghost var lists: seq<seq<nat>>

    ghost predicate Valid()
      reads this
    {
      Wheeled(slots, mem, cur, lists)
    }

    constructor ()
      ensures Valid() && mem == map[]
    {
      slots, cur, mem, lists := seq(N, i => 0), 0, map[], seq(N, i => []);
    }

    /** `o` is what new returns: an unused address. */
    method AddTimer(timeout: int, o: nat) returns (r: nat)
      requires Valid() && o != 0 && o !in mem
      modifies this
      ensures Valid() && cur == old(cur)
      ensures timeout < 0 ==> r == 0 && mem == old(mem)
      ensures timeout >= 0 ==>
        && r == o && mem.Keys == old(mem.Keys) + {o}
        && Due(mem, cur, o) == (if timeout < TI then 1 else timeout / TI) + 1
        && forall x :: x in old(mem) ==> Due(mem, cur, x) == Due(old(mem), cur, x)
    {
      hide Wheeled, Linked;
      if timeout < 0 {
        return 0;
      }
      var ticks := if timeout < TI then 1 else timeout / TI;
      var rotation, ts := ticks / N, (cur + ticks % N) % N;
      WheelFacts(slots, mem, cur, lists);
      PushWheeled(slots, mem, cur, lists, o, rotation, ts);
      if slots[ts] == 0 {
        mem := mem[o := Timer(rotation, ts, 0, 0)];
      } else {
        mem := SetPrev(mem, slots[ts], o)[o := Timer(rotation, ts, slots[ts], 0)];
      }
      slots := slots[ts := o];
      lists := lists[ts := [o] + lists[ts]];
      return o;
    }

    /** A null pointer is ignored; any other must be a timer that has neither fired nor been deleted. */
    method DelTimer(o: nat)
      requires Valid() && (o == 0 || o in mem)
      modifies this
      ensures Valid() && cur == old(cur) && mem.Keys == old(mem.Keys) - {o}
      ensures forall x :: x in mem ==> Due(mem, cur, x) == Due(old(mem), cur, x)
    {
      WheelFacts(slots, mem, cur, lists);
      hide Wheeled, Linked, Unlinked;
      if o == 0 {
        return;
      }
      var ts := mem[o].slot;
      UnlinkWheeled(slots, mem, cur, lists, o);
      var (head, mem') := Unlinked(slots[ts], mem, o);
      lists := lists[ts := Without(lists[ts], IndexOf(lists[ts], o))];
      slots, mem := slots[ts := head], mem';
    }

    /** Fire: unlink and delete the timer; the next one to look at. */
    method FireOne(tmp: nat, ghost i: nat) returns (next: nat)
      requires Valid() && cur < N == |lists| && i < |lists[cur]| && lists[cur][i] == tmp && tmp in mem &&
        mem[tmp].rotation == 0
      modifies this
      ensures Valid() && cur == old(cur) && |lists| == N && next == At(old(lists[cur]), i + 1)
      ensures lists[cur] == Without(old(lists[cur]), i) && mem.Keys == old(mem.Keys) - {tmp}
      ensures forall x :: x in mem ==> mem[x].slot == old(mem)[x].slot && mem[x].rotation == old(mem)[x].rotation
    {
      hide Wheeled, Linked, NoDup, IndexOf;
      WheelFacts(slots, mem, cur, lists);
      StandsAt(slots, mem, cur, lists, i);
      UnlinkWheeled(slots, mem, cur, lists, tmp);
      var (head, mem') := Unlinked(slots[cur], mem, tmp);
      var isHead, tmp2 := tmp == slots[cur], mem[tmp].next;
      lists := lists[cur := Without(lists[cur], i)];
      slots, mem := slots[cur := head], mem';
      next := if isHead then slots[cur] else tmp2;
    }

    method TurnOne(tmp: nat, ghost i: nat) returns (next: nat)
      requires Valid() && cur < N == |lists| && i < |lists[cur]| && lists[cur][i] == tmp && tmp in mem &&
        mem[tmp].rotation > 0
      modifies this`mem
      ensures Valid() && next == At(lists[cur], i + 1)
      ensures mem == old(mem)[tmp := old(mem)[tmp].(rotation := old(mem)[tmp].rotation - 1)]
    {
      hide Wheeled, Linked, NoDup, IndexOf;
      StandsAt(slots, mem, cur, lists, i);
      TurnWheeled(slots, mem, cur, lists, tmp);
      mem := mem[tmp := mem[tmp].(rotation := mem[tmp].rotation - 1)];
      next := mem[tmp].next;
    }

    /** One round of the loop of a tick: `n` timers of the old list `c0` are done, and `kept` are left of them. */
    method TickOne(tmp: nat, fired: seq<nat>, ghost mem0: Memory, ghost c0: seq<nat>, ghost n: nat,
        ghost kept: seq<nat>)
        returns (next: nat, fired': seq<nat>, ghost kept': seq<nat>)
      requires Valid() && cur < N == |lists| && n < |c0| && NoDup(c0) && tmp == c0[n] != 0
      requires lists[cur] == kept + c0[n..] && Ticked(mem0, mem, c0[..n], fired)
      modifies this
      ensures Valid() && cur == old(cur) && |lists| == N && next == At(c0, n + 1)
      ensures lists[cur] == kept' + c0[n + 1..] && Ticked(mem0, mem, c0[..n + 1], fired')
    {
      hide Wheeled, Linked, Ticked, NoDup, IndexOf, Without;
      AtTheFront(kept, c0, n);
      StandsAt(slots, mem, cur, lists, |kept|);
      NotYetDone(c0, n);
      if mem[tmp].rotation > 0 {
        TurnedTicked(mem0, mem, c0[..n], fired, tmp);
        fired', kept' := fired, kept + [tmp];
        next := TurnOne(tmp, |kept|);
      } else {
        ghost var before := mem;
        next := FireOne(tmp, |kept|);
        FiredTicked(mem0, before, mem, c0[..n], fired, tmp);
        fired', kept' := fired + [tmp], kept;
      }
    }

    /** The loop of a tick over the current slot. */
    method WalkSlot() returns (fired: seq<nat>)
      requires Valid() && cur < N == |lists|
      modifies this
      ensures Valid() && cur == old(cur) && Ticked(old(mem), mem, old(lists[cur]), fired)
    {
      hide Wheeled, Linked, Ticked, NoDup, NoNulls;
      ghost var mem0, c0 := mem, lists[cur];
      ghost var n, kept: seq<nat> := 0, [];
      fired := [];
      WheelFacts(slots, mem, cur, lists);
      FreshTicked(mem);
      assert c0[..0] == [] && [] + c0[0..] == c0;
      var tmp := slots[cur];
      while tmp != 0
        invariant Valid() && cur == old(cur) && n <= |c0| && |lists| == N
        invariant lists[cur] == kept + c0[n..] && tmp == At(c0, n)
        invariant Ticked(mem0, mem, c0[..n], fired)
        decreases |c0| - n
      {
        tmp, fired, kept := TickOne(tmp, fired, mem0, c0, n, kept);
        n := n + 1;
      }
      AtTheEnd(c0, n);
    }

    method Tick() returns (fired: seq<nat>)
      requires Valid()
      modifies this
      ensures Valid() && cur == (old(cur) + 1) % N && NoDup(fired)
      ensures forall o :: o in fired <==> o in old(mem) && Due(old(mem), old(cur), o) == 1
      ensures forall o :: o in mem <==> o in old(mem) && Due(old(mem), old(cur), o) != 1
      ensures forall o :: o in mem ==> Due(mem, cur, o) == Due(old(mem), old(cur), o) - 1
    {
      hide Wheeled, Ticked, Due, NoDup;
      ghost var mem0, slots0, lists0 := mem, slots, lists;
      WheelFacts(slots, mem, cur, lists);
      fired := WalkSlot();
      WheelFacts(slots, mem, cur, lists);
      forall o
        ensures o in fired <==> o in mem0 && Due(mem0, cur, o) == 1
        ensures o in mem <==> o in mem0 && Due(mem0, cur, o) != 1
        ensures o in mem ==> Due(mem, (cur + 1) % N, o) == Due(mem0, cur, o) - 1
      {
        TickedAll(slots0, mem0, mem, cur, lists0, fired, o);
      }
      MoveOn(slots, mem, cur, lists);
      TickedNoDup(mem0, mem, lists0[cur], fired);
      cur := (cur + 1) % N;
    }
  }

  lemma MoveOn(slots: seq<nat>, mem: Memory, cur: nat, lists: seq<seq<nat>>)
    requires Wheeled(slots, mem, cur, lists)
    ensures Wheeled(slots, mem, (cur + 1) % N, lists)
  {
  }

  lemma TickedNoDup(mem0: Memory, mem: Memory, done: seq<nat>, fired: seq<nat>)
    requires Ticked(mem0, mem, done, fired)
    ensures NoDup(fired)
  {
  }
}
