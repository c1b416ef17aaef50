/**
 * Timers in a binary heap kept in an array that grows by doubling. A timer is
 * cancelled by clearing its callback; it stays in the heap until it is due.
 */
module TimeHeap {
  /** A timer's address and its expiry. */
  datatype Timer = Timer(id: nat, expire: int)

  const NULL_TIMER: Timer := Timer(0, 0)

  function Parent(k: int): int { (k - 1) / 2 }

  // ----- heap order

  /** Position k is no earlier than its parent, as far as parents from lo on are concerned. */
  predicate OrderedAt(s: seq<Timer>, lo: nat, k: int) {
    1 <= k < |s| && lo <= Parent(k) ==> s[Parent(k)].expire <= s[k].expire
  }

  ghost predicate HeapFrom(s: seq<Timer>, lo: nat) { forall k :: 1 <= k < |s| ==> OrderedAt(s, lo, k) }

  /** In order but for the children of h, which are in order with the parent of h. */
  ghost predicate HoleDown(s: seq<Timer>, lo: nat, h: nat) {
    && (forall k :: 1 <= k < |s| && Parent(k) != h ==> OrderedAt(s, lo, k))
    && (forall k :: 1 <= k < |s| && Parent(k) == h && h >= 1 && lo <= Parent(h) ==> s[Parent(h)].expire <= s[k].expire)
  }

  /** In order but for h itself, whose children are in order with its parent. */
  ghost predicate HoleUp(s: seq<Timer>, h: nat) {
    && (forall k :: 1 <= k < |s| && k != h ==> OrderedAt(s, 0, k))
    && (forall k :: 1 <= k < |s| && Parent(k) == h && h >= 1 ==> s[Parent(h)].expire <= s[k].expire)
  }

  function Swap(s: seq<Timer>, i: nat, j: nat): (r: seq<Timer>)
    requires i < |s| && j < |s|
    ensures |r| == |s|
  {
    s[i := s[j]][j := s[i]]
  }

  lemma SwapKeeps(s: seq<Timer>, i: nat, j: nat)
    requires i < |s| && j < |s|
    ensures multiset(Swap(s, i, j)) == multiset(s)
  {
  }

  /** The child to move up: the earlier of the two. */
  predicate BestChild(s: seq<Timer>, h: nat, c: nat) {
    && c < |s| && h < c && Parent(c) == h
    && forall k :: 1 <= k < |s| && Parent(k) == h ==> s[c].expire <= s[k].expire
  }

  lemma {:induction false} MoveDown(s: seq<Timer>, lo: nat, h: nat, c: nat)
    requires h < |s| && lo <= h && HoleDown(s, lo, h) && BestChild(s, h, c) && s[c].expire < s[h].expire
    ensures HoleDown(Swap(s, h, c), lo, c)
  {
    var r := Swap(s, h, c);
    forall k | 1 <= k < |r| && Parent(k) != c ensures OrderedAt(r, lo, k) {
      assert k != h && Parent(k) != h ==> OrderedAt(s, lo, k);
      if k == h {
        assert OrderedAt(s, lo, h);
      }
    }
    forall k | 1 <= k < |r| && Parent(k) == c ensures r[Parent(c)].expire <= r[k].expire {
      assert OrderedAt(s, lo, k);
    }
  }

  lemma {:induction false} SettledDown(s: seq<Timer>, lo: nat, h: nat)
    requires h < |s| && lo <= h && HoleDown(s, lo, h)
    requires forall k :: 1 <= k < |s| && Parent(k) == h ==> s[h].expire <= s[k].expire
    ensures HeapFrom(s, lo)
  {
    forall k | 1 <= k < |s| ensures OrderedAt(s, lo, k) {
      if Parent(k) != h {
        assert OrderedAt(s, lo, k);
      }
    }
  }

  lemma {:induction false} MoveUp(s: seq<Timer>, h: nat)
    requires 1 <= h < |s| && HoleUp(s, h) && s[Parent(h)].expire > s[h].expire
    ensures HoleUp(Swap(s, h, Parent(h)), Parent(h))
  {
    var p := Parent(h);
    var r := Swap(s, h, p);
    forall k | 1 <= k < |r| && k != p ensures OrderedAt(r, 0, k) {
      if k != h {
        assert OrderedAt(s, 0, k);
      }
    }
    forall k | 1 <= k < |r| && Parent(k) == p && p >= 1 ensures r[Parent(p)].expire <= r[k].expire {
      assert OrderedAt(s, 0, p);
      if k != h {
        assert OrderedAt(s, 0, k);
      }
    }
  }

  lemma {:induction false} SettledUp(s: seq<Timer>, h: nat)
    requires h < |s| && HoleUp(s, h) && (h >= 1 ==> s[Parent(h)].expire <= s[h].expire)
    ensures HeapFrom(s, 0)
  {
    forall k | 1 <= k < |s| ensures OrderedAt(s, 0, k) {
      if k != h {
        assert OrderedAt(s, 0, k);
      }
    }
  }

  /** The root is the earliest. */
  lemma {:induction false} RootFirst(s: seq<Timer>, k: nat)
    requires HeapFrom(s, 0) && k < |s|
    ensures s[0].expire <= s[k].expire
  {
    if k > 0 {
      assert OrderedAt(s, 0, k);
      RootFirst(s, Parent(k));
    }
  }

  /** Positions without children are in order by themselves. */
  lemma HeapBeyond(s: seq<Timer>, lo: nat)
    requires 2 * lo + 1 >= |s|
    ensures HeapFrom(s, lo)
  {
  }

  lemma {:induction false} HoleAtRootOf(s: seq<Timer>, h: nat)
    requires HeapFrom(s, h + 1)
    ensures HoleDown(s, h, h)
  {
    forall k | 1 <= k < |s| && Parent(k) != h ensures OrderedAt(s, h, k) {
      assert OrderedAt(s, h + 1, k);
    }
  }

  // ----- the heap

  predicate NonDecreasing(s: seq<Timer>) { forall i, j :: 0 <= i < j < |s| ==> s[i].expire <= s[j].expire }

  /** The timers whose callback has not been cleared. */
  function Live(s: seq<Timer>, cancelled: set<nat>): seq<Timer> {
    if s == [] then []
    else Live(s[..|s| - 1], cancelled) + if s[|s| - 1].id in cancelled then [] else [s[|s| - 1]]
  }

  function IdsOf(s: seq<Timer>): set<nat> { set t | t in s :: t.id }

  /** No two of the timers are at the same address. */
  ghost predicate Distinct(m: multiset<Timer>) {
    && (forall t :: t in m ==> m[t] == 1)
    && (forall t, u :: t in m && u in m && t.id == u.id ==> t == u)
  }

  class TimeHeap {
    var arr: array<Timer>
    var curSize: nat
    /** The timers with a null callback. */
    var cancelled: set<nat>

    ghost predicate Shaped()
      reads this
    {
      arr.Length >= 1 && curSize <= arr.Length
    }

    ghost predicate Valid()
      reads this, arr
    {
      Shaped() && HeapFrom(arr[..curSize], 0)
    }

    ghost function Contents(): multiset<Timer>
      requires curSize <= arr.Length
      reads this, arr
    {
      multiset(arr[..curSize])
    }

    constructor (capacity: nat)
      requires capacity >= 1
      ensures Valid() && fresh(arr) && arr.Length == capacity && curSize == 0 && Contents() == multiset{} &&
        cancelled == {}
    {
      arr := new Timer[capacity](i => NULL_TIMER);
      curSize, cancelled := 0, {};
    }

    /** Sift the timer at `start` down until its children are no earlier. */
    method PercolateDown(start: nat, ghost lo: nat)
      requires Shaped() && lo <= start < curSize && HoleDown(arr[..curSize], lo, start)
      modifies arr
      ensures HeapFrom(arr[..curSize], lo) && multiset(arr[..curSize]) == old(multiset(arr[..curSize]))
    {
      hide HoleDown, HeapFrom, Parent, Swap, BestChild;
      var hole, temp := start, arr[start];
      ghost var v := arr[..curSize];
      ghost var all := multiset(v);
      while hole * 2 + 1 <= curSize - 1
        invariant lo <= hole < curSize && |v| == curSize && v[hole] == temp && HoleDown(v, lo, hole) &&
          multiset(v) == all
        invariant forall k :: 0 <= k < curSize && k != hole ==> arr[k] == v[k]
        decreases curSize - hole
      {
        var child := hole * 2 + 1;
        if child < curSize - 1 && arr[child + 1].expire < arr[child].expire {
          child := child + 1;
        }
        Best(v, hole, child);
        if arr[child].expire < temp.expire {
          MoveDown(v, lo, hole, child);
          SwapKeeps(v, hole, child);
          SwapAt(v, hole, child);
          v := Swap(v, hole, child);
          arr[hole] := arr[child];
        } else {
          Settle(v, lo, hole, child);
          break;
        }
        hole := child;
      }
      if hole * 2 + 1 > curSize - 1 {
        NoChildren(v, lo, hole);
      }
      FillHole(hole, temp, v);
    }

    method FillHole(hole: nat, timer: Timer, ghost v: seq<Timer>)
      requires hole < curSize <= arr.Length && |v| == curSize && v[hole] == timer
      requires forall k :: 0 <= k < curSize && k != hole ==> arr[k] == v[k]
      modifies arr
      ensures arr[..curSize] == v
    {
      arr[hole] := timer;
    }

    /** Make a heap of the first curSize timers, from the last parent to the root. */
    method Heapify()
      requires Shaped() && curSize > 0
      modifies arr
      ensures Valid() && Contents() == old(Contents())
    {
      var i: int := (curSize - 1) / 2;
      HeapBeyond(arr[..curSize], i + 1);
      hide HoleDown, HeapFrom;
      while i >= 0
        invariant -1 <= i < curSize && HeapFrom(arr[..curSize], i + 1) &&
          multiset(arr[..curSize]) == old(multiset(arr[..curSize]))
      {
        HoleAtRootOf(arr[..curSize], i);
        PercolateDown(i, i);
        i := i - 1;
      }
    }

    method Resize()
      requires Valid()
      modifies this`arr
      ensures Valid() && fresh(arr) && arr.Length == 2 * old(arr.Length) && arr[..curSize] == old(arr[..curSize])
    {
      var temp := new Timer[2 * arr.Length](i => NULL_TIMER);
      var i := 0;
      while i < curSize
        invariant arr == old(arr) && i <= curSize && temp[..i] == arr[..i] && arr[..curSize] == old(arr[..curSize])
      {
        temp[i] := arr[i];
        i := i + 1;
      }
      arr := temp;
    }

    /** Sift up from the hole at the end. */
    method Place(timer: Timer)
      requires Valid() && curSize < arr.Length
      modifies this`curSize, arr
      ensures Valid() && Contents() == old(Contents()) + multiset{timer}
    {
      hide HoleUp, HeapFrom, Parent, Swap;
      ghost var v := arr[..curSize] + [timer];
      HoleAtEnd(arr[..curSize], timer);
      ghost var all := multiset(v);
      assert all == Contents() + multiset{timer};
      var hole: nat := curSize;
      curSize := curSize + 1;
      while hole > 0
        invariant hole < curSize == |v| && v[hole] == timer && HoleUp(v, hole) && multiset(v) == all
        invariant curSize == old(curSize) + 1 && arr == old(arr)
        invariant forall k :: 0 <= k < curSize && k != hole ==> arr[k] == v[k]
      {
        var parent := (hole - 1) / 2;
        ParentIs(hole);
        if arr[parent].expire <= timer.expire {
          break;
        }
        MoveUp(v, hole);
        SwapKeeps(v, hole, parent);
        SwapAt(v, hole, parent);
        v := Swap(v, hole, parent);
        arr[hole] := arr[parent];
        hole := parent;
      }
      if hole > 0 {
        ParentIs(hole);
      }
      SettledUp(v, hole);
      FillHole(hole, timer, v);
    }

    /** Address 0 is the null pointer. */
    method AddTimer(timer: Timer)
      requires Valid()
      modifies this`arr, this`curSize, arr
      ensures Valid() && (fresh(arr) || arr == old(arr))
      ensures Contents() == old(Contents()) + if timer.id == 0 then multiset{} else multiset{timer}
    {
      if timer.id == 0 {
        return;
      }
      if curSize >= arr.Length {
        Resize();
      }
      Place(timer);
    }

    /** Lazy: only the callback is cleared. */
    method DelTimer(timer: Timer)
      requires Valid()
      modifies this`cancelled
      ensures Valid() && Contents() == old(Contents())
      ensures cancelled == old(cancelled) + if timer.id == 0 then {} else {timer.id}
    {
      if timer.id == 0 {
        return;
      }
      cancelled := cancelled + {timer.id};
    }

    /** The root is deleted: its address may be used for a new timer, whose callback is not cleared. */
    method PopTimer()
      requires Valid()
      modifies this`curSize, this`cancelled, arr
      ensures Valid() && (old(curSize) == 0 ==> curSize == 0 && cancelled == old(cancelled))
      ensures old(curSize) > 0 ==> curSize == old(curSize) - 1 && old(Contents()) == multiset{old(arr[0])} + Contents()
      ensures old(curSize) > 0 ==> cancelled == old(cancelled) - {old(arr[0]).id}
    {
      if curSize == 0 {
        return;
      }
      cancelled := cancelled - {arr[0].id};
      ghost var s := arr[..curSize];
      curSize := curSize - 1;
      arr[0] := arr[curSize];
      assert arr[..curSize] == MovedLast(s);
      PopKeeps(s);
      if curSize > 0 {
        hide HoleDown, HeapFrom;
        PercolateDown(0, 0);
      }
    }

    /** Take out the root, which nothing left precedes. */
    method TakeRoot() returns (t: Timer)
      requires Valid() && curSize > 0
      modifies this`curSize, this`cancelled, arr
      ensures Valid() && curSize == old(curSize) - 1 && t == old(arr[0]) && cancelled == old(cancelled) - {t.id}
      ensures old(Contents()) == multiset{t} + Contents() && NoneBefore(Contents(), t.expire)
    {
      hide HeapFrom;
      t := arr[0];
      Earliest(arr[..curSize]);
      PopTimer();
    }

    /** `popped` are all the timers taken out; those with a callback are called back. */
    method Tick(now: int) returns (fired: seq<Timer>, ghost popped: seq<Timer>)
      requires Valid() && Distinct(Contents())
      modifies this`curSize, this`cancelled, arr
      ensures Valid() && fired == Live(popped, old(cancelled)) && NonDecreasing(popped)
      ensures old(Contents()) == multiset(popped) + Contents() && cancelled == old(cancelled) - IdsOf(popped)
      ensures forall t :: t in popped ==> t.expire <= now
      ensures forall t :: t in Contents() ==> t.expire > now
    {
      hide HeapFrom, Ticking, Distinct, IdsOf, Live, NonDecreasing, NoneBefore;
      fired, popped := [], [];
      NothingYet(Contents(), cancelled, now);
      NoIds();
      while curSize > 0
        invariant Valid() && Ticking(old(Contents()), Contents(), fired, popped, old(cancelled), now)
        invariant cancelled == old(cancelled) - IdsOf(popped)
        decreases curSize
      {
        var tmp := arr[0];
        if tmp.expire > now {
          Earliest(arr[..curSize]);
          NoneDue(Contents(), tmp.expire, now);
          break;
        }
        ghost var before, fired0 := Contents(), fired;
        assert tmp in before;
        NotPopped(old(Contents()), before, fired, popped, tmp, old(cancelled), now);
        if tmp.id !in cancelled {
          fired := fired + [tmp];
        }
        assert fired == fired0 + if tmp.id in old(cancelled) then [] else [tmp];
        tmp := TakeRoot();
        OneMore(old(Contents()), before, Contents(), fired0, popped, tmp, old(cancelled), now);
        IdsMore(popped, tmp);
        popped := popped + [tmp];
      }
      TickingIs(old(Contents()), Contents(), fired, popped, old(cancelled), now);
    }
  }

  /** A heap of the given timers; null stands for the exception when they exceed the capacity. */
  method Build(timers: seq<Timer>, capacity: nat) returns (h: TimeHeap?)
    requires capacity >= 1
    ensures h == null <==> |timers| > capacity
    ensures h != null ==> h.Valid() && fresh(h) && fresh(h.arr) && h.Contents() == multiset(timers) && h.cancelled == {}
  {
    if capacity < |timers| {
      return null;
    }
    h := new TimeHeap(capacity);
    var i := 0;
    while i < |timers|
      invariant i <= |timers| <= h.arr.Length && h.arr[..i] == timers[..i] && h.arr.Length == capacity && h.curSize == 0
      invariant h.cancelled == {} && fresh(h.arr)
    {
      h.arr[i] := timers[i];
      i := i + 1;
    }
    h.curSize := |timers|;
    assert h.arr[..h.curSize] == timers;
    if |timers| != 0 {
      h.Heapify();
    }
  }

  /** How far a tick has come: what was there is popped or left, and what is popped was due, in order. */
  ghost predicate Ticking(all: multiset<Timer>, left: multiset<Timer>, fired: seq<Timer>, popped: seq<Timer>,
                          cancelled: set<nat>, now: int)
  {
    && all == multiset(popped) + left && fired == Live(popped, cancelled) && NonDecreasing(popped)
    && (forall i :: 0 <= i < |popped| ==> popped[i].expire <= now)
    && (popped != [] ==> NoneBefore(left, popped[|popped| - 1].expire))
  }

  predicate NoneBefore(m: multiset<Timer>, time: int) { forall t :: t in m ==> time <= t.expire }

  lemma NothingYet(all: multiset<Timer>, cancelled: set<nat>, now: int)
    ensures Ticking(all, all, [], [], cancelled, now)
  {
  }

  lemma TickingIs(all: multiset<Timer>, left: multiset<Timer>, fired: seq<Timer>, popped: seq<Timer>,
      cancelled: set<nat>, now: int)
    requires Ticking(all, left, fired, popped, cancelled, now)
    ensures all == multiset(popped) + left && fired == Live(popped, cancelled) && NonDecreasing(popped)
    ensures forall t :: t in popped ==> t.expire <= now
  {
  }

  lemma NoIds()
    ensures IdsOf([]) == {}
  {
  }

  lemma IdsMore(s: seq<Timer>, t: Timer)
    ensures IdsOf(s + [t]) == IdsOf(s) + {t.id}
  {
  }

  lemma NoneDue(m: multiset<Timer>, time: int, now: int)
    requires NoneBefore(m, time) && time > now
    ensures forall t :: t in m ==> t.expire > now
  {
  }

  lemma NotPopped(all: multiset<Timer>, left: multiset<Timer>, fired: seq<Timer>, popped: seq<Timer>, t: Timer,
      cancelled: set<nat>, now: int)
    requires Distinct(all) && Ticking(all, left, fired, popped, cancelled, now) && t in left
    ensures t.id !in IdsOf(popped)
  {
    forall u | u in popped ensures u.id != t.id {
      assert u in multiset(popped) && u in all && t in all;
      assert u == t ==> all[t] >= 2;
    }
  }

  lemma {:induction false} OneMore(all: multiset<Timer>, left: multiset<Timer>, left': multiset<Timer>,
      fired: seq<Timer>,
                                   popped: seq<Timer>, t: Timer, cancelled: set<nat>, now: int)
    requires Ticking(all, left, fired, popped, cancelled, now) && t.expire <= now
    requires left == multiset{t} + left' && NoneBefore(left', t.expire)
    ensures Ticking(all, left', fired + (if t.id in cancelled then [] else [t]), popped + [t], cancelled, now)
  {
    hide Live, NonDecreasing;
    assert t in left;
    LiveMore(popped, t, cancelled);
    SortedMore(popped, t);
    assert multiset(popped + [t]) == multiset(popped) + multiset{t};
  }

  lemma LiveMore(popped: seq<Timer>, t: Timer, cancelled: set<nat>)
    ensures Live(popped + [t], cancelled) == Live(popped, cancelled) + if t.id in cancelled then [] else [t]
  {
    assert (popped + [t])[..|popped|] == popped;
  }

  lemma SortedMore(popped: seq<Timer>, t: Timer)
    requires NonDecreasing(popped) && (popped != [] ==> popped[|popped| - 1].expire <= t.expire)
    ensures NonDecreasing(popped + [t])
  {
  }

  lemma SwapAt(s: seq<Timer>, i: nat, j: nat)
    requires i < |s| && j < |s|
    ensures forall k :: 0 <= k < |s| ==> Swap(s, i, j)[k] == if k == j then s[i] else if k == i then s[j] else s[k]
  {
  }

  lemma Best(v: seq<Timer>, h: nat, c: nat)
    requires h < |v| && 2 * h + 1 < |v| && (c == 2 * h + 1 || c == 2 * h + 2) && c < |v|
    requires c == 2 * h + 1 && c + 1 < |v| ==> v[c].expire <= v[c + 1].expire
    requires c == 2 * h + 2 ==> v[c].expire <= v[c - 1].expire
    ensures BestChild(v, h, c)
  {
  }

  lemma Settle(v: seq<Timer>, lo: nat, h: nat, c: nat)
    requires h < |v| && lo <= h && HoleDown(v, lo, h) && BestChild(v, h, c) && v[c].expire >= v[h].expire
    ensures HeapFrom(v, lo)
  {
    SettledDown(v, lo, h);
  }

  lemma NoChildren(v: seq<Timer>, lo: nat, h: nat)
    requires h < |v| && lo <= h && HoleDown(v, lo, h) && 2 * h + 1 >= |v|
    ensures HeapFrom(v, lo)
  {
    SettledDown(v, lo, h);
  }

  lemma ParentIs(h: nat)
    requires h > 0
    ensures Parent(h) == (h - 1) / 2
  {
  }

  lemma {:induction false} HoleAtEnd(s: seq<Timer>, t: Timer)
    requires HeapFrom(s, 0)
    ensures HoleUp(s + [t], |s|)
  {
    forall k | 1 <= k < |s| ensures OrderedAt(s + [t], 0, k) {
      assert OrderedAt(s, 0, k);
    }
  }

  /** The last timer in the place of the first. */
  function MovedLast(s: seq<Timer>): seq<Timer>
    requires s != []
  {
    if |s| == 1 then [] else s[..|s| - 1][0 := s[|s| - 1]]
  }

  lemma {:induction false} PopKeeps(s: seq<Timer>)
    requires s != [] && HeapFrom(s, 0)
    ensures multiset(s) == multiset{s[0]} + multiset(MovedLast(s))
    ensures |s| > 1 ==> HoleDown(MovedLast(s), 0, 0)
    ensures |s| == 1 ==> HeapFrom(MovedLast(s), 0)
  {
    var r, last := MovedLast(s), s[|s| - 1];
    if |s| > 1 {
      assert s == [s[0]] + s[1..|s| - 1] + [last];
      assert r == [last] + s[1..|s| - 1];
      forall k | 1 <= k < |r| && Parent(k) != 0 ensures OrderedAt(r, 0, k) {
        assert OrderedAt(s, 0, k);
      }
    } else {
      assert s == [s[0]];
    }
  }

  lemma {:induction false} Earliest(s: seq<Timer>)
    requires s != [] && HeapFrom(s, 0)
    ensures NoneBefore(multiset(s), s[0].expire)
  {
    forall t | t in multiset(s) ensures s[0].expire <= t.expire {
      var k: nat :| k < |s| && s[k] == t;
      RootFirst(s, k);
    }
  }
}
