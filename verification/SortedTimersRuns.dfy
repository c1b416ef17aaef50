/** The sorted timer list driven through any run of adds, removals, extensions and ticks. */
module SortedTimersRuns {
  import opened SortedTimers
  import opened TimerRuns

  /** The timers in the list are those of the map, and no others are allocated. */
  ghost predicate Keeps(mem: Memory, c: seq<nat>, held: map<nat, int>) {
    && (forall o :: o in c <==> o in held) && (forall o :: o in mem <==> o in held)
    && (forall o :: o in held ==> Expiry(mem, o) == held[o])
  }

  /** The list stands for this state. */
  ghost predicate StandsFor(l: TimerList, st: State)
    reads l
  {
    l.Valid() && Keeps(l.mem, l.list, st.held) && st.dead == {}
  }

  /** Called back are exactly the timers at these addresses, each once, in order of expiry. */
  ghost predicate CalledBack(fired: seq<nat>, held: map<nat, int>, ids: set<nat>) {
    && NoDup(fired) && (forall o :: o in fired <==> o in ids) && (forall o :: o in ids ==> o in held)
    && (forall i, j :: 0 <= i < j < |fired| ==>
          fired[i] in held && fired[j] in held && held[fired[i]] <= held[fired[j]])
  }

  lemma NothingFired(held: map<nat, int>)
    ensures CalledBack([], held, {})
  {
  }

  /** A new timer outside the list. */
  lemma Allocated(l: TimerList, o: nat, t: Timer)
    requires l.Valid() && o !in l.list && o != 0
    ensures Listed(l.head, l.tail, l.mem[o := t], l.list)
  {
    var mem' := l.mem[o := t];
    AllIn(l.head, l.mem, l.list);
    hide Linked, NodeAt, NoDup;
    NonNull(l.head, l.mem, l.list, |l.list|);
    OutsideLinked(l.head, l.mem, mem', l.list);
    assert forall x :: x in l.list ==> Expiry(mem', x) == Expiry(l.mem, x);
    forall i, j | 0 <= i < j < |l.list| ensures Expiry(mem', l.list[i]) <= Expiry(mem', l.list[j]) {
      assert l.list[i] in l.list && l.list[j] in l.list;
    }
  }

  /** An extended timer is no earlier than the one before it. */
  lemma ExtendsKeepPlace(mem: Memory, c: seq<nat>, o: nat, expire: int)
    requires InOrder(mem, c) && o in c && Expiry(mem, o) <= expire
    ensures KeepsPlace(mem, c, IndexOf(c, o), expire)
  {
    var i := IndexOf(c, o);
    if i > 0 {
      assert Expiry(mem, c[i - 1]) <= Expiry(mem, c[i]);
    }
  }

  lemma {:induction false} TickFires(mem: Memory, c: seq<nat>, held: map<nat, int>, fired: seq<nat>, rest: seq<nat>,
      now: int)
    requires InOrder(mem, c) && NoDup(c) && Keeps(mem, c, held) && fired + rest == c && |fired| == DueCount(mem, c, now)
    ensures CalledBack(fired, held, Fires(State(held, {}), Tick(now)))
    ensures forall o :: o in rest <==> o in Later(held, now)
    ensures forall o :: o in fired ==> o !in rest
  {
    hide DueCount;
    forall i: nat | i < |c| ensures c[i] in held && held[c[i]] == Expiry(mem, c[i]) &&
      (i < |fired| <==> held[c[i]] <= now) {
      assert c[i] in c;
      DueArePast(mem, c, now, i);
    }
    forall i: nat | i < |fired| ensures fired[i] == c[i] {
      assert (fired + rest)[i] == fired[i];
    }
    forall i: nat | i < |rest| ensures rest[i] == c[|fired| + i] {
      assert (fired + rest)[|fired| + i] == rest[i];
    }
    forall o | o in held ensures (o in fired <==> held[o] <= now) && (o in rest <==> held[o] > now) {
      var i: nat :| i < |c| && c[i] == o;
      if i < |fired| {
        assert fired[i] == o;
      } else {
        assert rest[i - |fired|] == o;
      }
    }
    assert forall o :: o in fired || o in rest ==> o in c;
  }

  lemma KeepsLater(mem: Memory, mem': Memory, c: seq<nat>, rest: seq<nat>, fired: seq<nat>, held: map<nat, int>,
      now: int)
    requires Keeps(mem, c, held) && fired + rest == c && (forall o :: o in rest <==> o in Later(held, now))
    requires (forall o :: o in fired ==> o !in rest) && mem'.Keys == mem.Keys - (set o | o in fired)
    requires forall x :: x in mem' ==> mem'[x].expire == mem[x].expire
    ensures Keeps(mem', rest, Later(held, now))
  {
    forall o ensures o in mem' <==> o in Later(held, now) {
      assert o in c <==> o in fired || o in rest;
    }
  }

  predicate EagerOp(op: Op) { op.Add? || op.Remove? || op.Extend? || op.Tick? }

  method PerformAdd(l: TimerList, o: nat, expire: int, ghost st: State)
    requires StandsFor(l, st) && Legal(st, Add(o, expire))
    modifies l
    ensures StandsFor(l, After(st, Add(o, expire)))
  {
    hide Linked, NodeAt, NoDup, InOrder;
    ghost var c := l.list;
    Allocated(l, o, Timer(expire, 0, 0));
    l.mem := l.mem[o := Timer(expire, 0, 0)];
    l.AddTimer(o);
    forall x ensures x in l.list <==> x in c || x == o {
      PutMembers(l.list, c, o, x);
    }
  }

  method PerformRemove(l: TimerList, o: nat, ghost st: State)
    requires StandsFor(l, st) && Legal(st, Remove(o))
    modifies l
    ensures StandsFor(l, After(st, Remove(o)))
  {
    hide Linked, NodeAt, NoDup, InOrder, Keeps, Without;
    ghost var mem, c := l.mem, l.list;
    LinkedNoDup(l.head, l.mem, c);
    Keyed(mem, c, st.held, o);
    l.DelTimer(o);
    KeepsLess(mem, l.mem, c, l.list, o, st.held);
  }

  lemma Keyed(mem: Memory, c: seq<nat>, held: map<nat, int>, o: nat)
    requires Keeps(mem, c, held) && o in held
    ensures o in c
  {
  }

  lemma KeepsLess(mem: Memory, mem': Memory, c: seq<nat>, c': seq<nat>, o: nat, held: map<nat, int>)
    requires Keeps(mem, c, held) && NoDup(c) && IndexOf(c, o) < |c| && c' == Without(c, IndexOf(c, o)) && o in c
    requires mem'.Keys == mem.Keys - {o} && forall x :: x in mem' ==> mem'[x].expire == mem[x].expire
    ensures Keeps(mem', c', held - {o})
  {
    hide NoDup, Without, IndexOf;
    forall x ensures x in c' <==> x in c && x != o {
      WithoutLacks(c, IndexOf(c, o), x);
    }
  }

  method PerformExtend(l: TimerList, o: nat, expire: int, ghost st: State)
    requires StandsFor(l, st) && Legal(st, Extend(o, expire))
    modifies l
    ensures StandsFor(l, After(st, Extend(o, expire)))
  {
    hide Linked, NodeAt, NoDup, InOrder, KeepsPlace;
    ExtendsKeepPlace(l.mem, l.list, o, expire);
    l.Adjust(o, expire);
  }

  method PerformTick(l: TimerList, now: int, ghost st: State) returns (fired: seq<nat>)
    requires StandsFor(l, st)
    modifies l
    ensures StandsFor(l, After(st, Tick(now))) && CalledBack(fired, st.held, Fires(st, Tick(now)))
  {
    hide Linked, NodeAt, NoDup, InOrder, CalledBack, DueCount, Keeps;
    ghost var mem, c := l.mem, l.list;
    LinkedNoDup(l.head, l.mem, c);
    fired := l.Tick(now);
    TickFires(mem, c, st.held, fired, l.list, now);
    KeepsLater(mem, l.mem, c, l.list, fired, st.held, now);
  }

  method Perform(l: TimerList, op: Op, ghost st: State) returns (fired: seq<nat>)
    requires StandsFor(l, st) && EagerOp(op) && Legal(st, op)
    modifies l
    ensures StandsFor(l, After(st, op)) && CalledBack(fired, st.held, Fires(st, op))
  {
    hide StandsFor, CalledBack, After;
    fired := [];
    NothingFired(st.held);
    match op
    case Add(o, expire) => PerformAdd(l, o, expire, st);
    case Remove(o) => PerformRemove(l, o, st);
    case Extend(o, expire) => PerformExtend(l, o, expire, st);
    case Tick(now) => fired := PerformTick(l, now, st);
  }

  /** At each operation of any legal run, exactly what is due is called back, in order of expiry. */
  method Drive(l: TimerList, ops: seq<Op>, ghost st: State) returns (log: seq<seq<nat>>)
    requires StandsFor(l, st) && LegalAll(st, ops) && forall i :: 0 <= i < |ops| ==> EagerOp(ops[i])
    modifies l
    ensures StandsFor(l, AfterAll(st, ops)) && |log| == |ops|
    ensures forall i :: 0 <= i < |ops| ==> CalledBack(log[i], AfterAll(st, ops[..i]).held, FiresAt(st, ops, i))
  {
    hide StandsFor, CalledBack, LegalAll, After, Fires, Legal;
    log := [];
    assert ops[..0] == [];
    while |log| < |ops|
      invariant |log| <= |ops| && StandsFor(l, AfterAll(st, ops[..|log|]))
      invariant forall i :: 0 <= i < |log| ==> CalledBack(log[i], AfterAll(st, ops[..i]).held, FiresAt(st, ops, i))
      decreases |ops| - |log|
    {
      var k := |log|;
      LegalPrefix(st, ops, k);
      assert ops[..k + 1][..k] == ops[..k] && EagerOp(ops[k]);
      var fired := Perform(l, ops[k], AfterAll(st, ops[..k]));
      log := log + [fired];
    }
    assert ops[..|ops|] == ops;
  }

  /** From an empty list. */
  method Run(ops: seq<Op>) returns (l: TimerList, log: seq<seq<nat>>)
    requires LegalAll(State(map[], {}), ops) && forall i :: 0 <= i < |ops| ==> EagerOp(ops[i])
    ensures StandsFor(l, AfterAll(State(map[], {}), ops)) && |log| == |ops|
    ensures forall i :: 0 <= i < |ops| ==>
      CalledBack(log[i], AfterAll(State(map[], {}), ops[..i]).held, FiresAt(State(map[], {}), ops, i))
  {
    l := new TimerList();
    hide CalledBack, LegalAll, AfterAll;
    log := Drive(l, ops, State(map[], {}));
  }

  /** A timer moved to an earlier time stays behind the one it should precede. */
  method EarlierTime() returns (l: TimerList)
    ensures l.list == [1, 2] && Expiry(l.mem, 1) == 10 && Expiry(l.mem, 2) == 5 && !InOrder(l.mem, l.list)
  {
    l := new TimerList();
    l.head, l.tail := 1, 2;
    l.mem := map[1 := Timer(10, 2, 0), 2 := Timer(20, 0, 1)];
    l.list := [1, 2];
    l.Adjust(2, 5);
  }
}
