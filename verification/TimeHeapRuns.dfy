/** The timer heap driven through any run of adds, lazy deletions and ticks. */
module TimeHeapRuns {
  import opened TimeHeap
  import opened TimerRuns

  /** The timers are those of the map, each once. */
  ghost predicate Keeps(m: multiset<Timer>, held: map<nat, int>) {
    && (forall t :: t in m ==> m[t] == 1 && t.id in held && held[t.id] == t.expire)
    && (forall o :: o in held ==> Timer(o, held[o]) in m)
  }

  /** The heap stands for this state. */
  ghost predicate StandsFor(h: TimeHeap, st: State)
    reads h, h.arr
  {
    h.Valid() && Keeps(h.Contents(), st.held) && h.cancelled == st.dead && forall o :: o in st.dead ==> o in st.held
  }

  lemma KeepsDistinct(m: multiset<Timer>, held: map<nat, int>)
    requires Keeps(m, held)
    ensures Distinct(m)
  {
  }

  lemma KeepsMore(m: multiset<Timer>, held: map<nat, int>, t: Timer)
    requires Keeps(m, held) && t.id !in held
    ensures Keeps(m + multiset{t}, held[t.id := t.expire])
  {
    var m', held' := m + multiset{t}, held[t.id := t.expire];
    assert t !in m;
    forall o | o in held' ensures Timer(o, held'[o]) in m' {
      if o != t.id {
        assert Timer(o, held[o]) in m;
      }
    }
  }

  lemma {:induction false} KeepsLater(m: multiset<Timer>, held: map<nat, int>, popped: seq<Timer>,
      m': multiset<Timer>, now: int)
    requires Keeps(m, held) && m == multiset(popped) + m'
    requires (forall t :: t in popped ==> t.expire <= now) && forall t :: t in m' ==> t.expire > now
    ensures Keeps(m', Later(held, now))
  {
    forall t | t in m' ensures m'[t] == 1 && t.id in Later(held, now) && Later(held, now)[t.id] == t.expire {
      assert t in m && m[t] >= m'[t];
    }
    forall o | o in Later(held, now) ensures Timer(o, held[o]) in m' {
      var t := Timer(o, held[o]);
      assert t in m;
      assert t !in multiset(popped);
    }
  }

  lemma {:induction false} LiveIs(s: seq<Timer>, cancelled: set<nat>, t: Timer)
    ensures t in Live(s, cancelled) <==> t in s && t.id !in cancelled
  {
    if s != [] {
      LiveIs(s[..|s| - 1], cancelled, t);
      assert s == s[..|s| - 1] + [s[|s| - 1]];
    }
  }

  lemma {:induction false} LiveOrdered(s: seq<Timer>, cancelled: set<nat>)
    requires NonDecreasing(s)
    ensures NonDecreasing(Live(s, cancelled))
  {
    if s != [] {
      var n := |s| - 1;
      LiveOrdered(s[..n], cancelled);
      var r := Live(s[..n], cancelled);
      forall i | 0 <= i < |r| ensures r[i].expire <= s[n].expire {
        LiveIs(s[..n], cancelled, r[i]);
        assert r[i] in s[..n];
      }
    }
  }

  /** Called back are exactly the timers at these addresses, each once, in order of expiry. */
  ghost predicate CalledBack(fired: seq<Timer>, held: map<nat, int>, ids: set<nat>) {
    && NonDecreasing(fired) && (forall t :: t in multiset(fired) ==> multiset(fired)[t] == 1)
    && (forall t :: t in fired ==> t.id in ids)
    && (forall o :: o in ids ==> o in held && Timer(o, held[o]) in fired)
    && (forall t :: t in fired ==> t.id in held && held[t.id] == t.expire)
  }

  lemma {:induction false} LiveOnce(s: seq<Timer>, cancelled: set<nat>, t: Timer)
    ensures multiset(Live(s, cancelled))[t] <= multiset(s)[t]
  {
    if s != [] {
      LiveOnce(s[..|s| - 1], cancelled, t);
      assert s == s[..|s| - 1] + [s[|s| - 1]];
    }
  }

  lemma {:induction false} TickFires(m: multiset<Timer>, st: State, popped: seq<Timer>, m': multiset<Timer>, now: int)
    requires Keeps(m, st.held) && m == multiset(popped) + m' && NonDecreasing(popped)
    requires (forall t :: t in popped ==> t.expire <= now) && forall t :: t in m' ==> t.expire > now
    ensures CalledBack(Live(popped, st.dead), st.held, Fires(st, Tick(now)))
  {
    hide NonDecreasing, Live, Keeps;
    var fired, held := Live(popped, st.dead), st.held;
    LiveOrdered(popped, st.dead);
    forall t | t in fired
      ensures t.id in held && held[t.id] == t.expire && t.id in Fires(st, Tick(now)) && multiset(fired)[t] == 1
    {
      FiredIsDue(m, st, popped, m', now, t);
    }
    forall o | o in Fires(st, Tick(now)) ensures Timer(o, held[o]) in fired {
      DueIsFired(m, st, popped, m', now, o);
    }
  }

  lemma FiredIsDue(m: multiset<Timer>, st: State, popped: seq<Timer>, m': multiset<Timer>, now: int, t: Timer)
    requires Keeps(m, st.held) && m == multiset(popped) + m' && (forall t :: t in popped ==> t.expire <= now)
    requires t in Live(popped, st.dead)
    ensures t.id in st.held && st.held[t.id] == t.expire && t.id in Fires(st, Tick(now))
    ensures multiset(Live(popped, st.dead))[t] == 1
  {
    LiveIs(popped, st.dead, t);
    LiveOnce(popped, st.dead, t);
    assert t in multiset(popped) && t in m && m[t] >= multiset(popped)[t];
    assert t in multiset(Live(popped, st.dead));
  }

  lemma DueIsFired(m: multiset<Timer>, st: State, popped: seq<Timer>, m': multiset<Timer>, now: int, o: nat)
    requires Keeps(m, st.held) && m == multiset(popped) + m' && forall t :: t in m' ==> t.expire > now
    requires o in Fires(st, Tick(now))
    ensures Timer(o, st.held[o]) in Live(popped, st.dead)
  {
    var t := Timer(o, st.held[o]);
    assert t in m && t !in m';
    assert t in multiset(popped);
    LiveIs(popped, st.dead, t);
  }

  /** Those cancelled that are still held after a tick. */
  lemma {:induction false} StillCancelled(m: multiset<Timer>, st: State, popped: seq<Timer>, m': multiset<Timer>,
      now: int)
    requires Keeps(m, st.held) && m == multiset(popped) + m' && forall o :: o in st.dead ==> o in st.held
    requires (forall t :: t in popped ==> t.expire <= now) && forall t :: t in m' ==> t.expire > now
    ensures st.dead - IdsOf(popped) == After(st, Tick(now)).dead
  {
    forall o | o in st.dead ensures o in IdsOf(popped) <==> o !in Later(st.held, now) {
      var t := Timer(o, st.held[o]);
      assert t in m;
      if o in IdsOf(popped) {
        var u :| u in popped && u.id == o;
        assert u in multiset(popped) && u in m;
      } else {
        assert t !in multiset(popped) && t in m';
      }
    }
  }

  predicate LazyOp(op: Op) { op.Add? || op.Cancel? || op.Tick? }

  method PerformAdd(h: TimeHeap, o: nat, expire: int, ghost st: State)
    requires StandsFor(h, st) && Legal(st, Add(o, expire))
    modifies h, h.arr
    ensures StandsFor(h, After(st, Add(o, expire))) && (fresh(h.arr) || h.arr == old(h.arr))
  {
    hide Keeps, HeapFrom;
    KeepsMore(h.Contents(), st.held, Timer(o, expire));
    h.AddTimer(Timer(o, expire));
  }

  method PerformTick(h: TimeHeap, now: int, ghost st: State) returns (fired: seq<Timer>)
    requires StandsFor(h, st)
    modifies h, h.arr
    ensures StandsFor(h, After(st, Tick(now))) && h.arr == old(h.arr)
    ensures CalledBack(fired, st.held, Fires(st, Tick(now)))
  {
    hide Keeps, Distinct, NonDecreasing, Live, IdsOf, HeapFrom, CalledBack, Later;
    ghost var m := h.Contents();
    KeepsDistinct(m, st.held);
    ghost var popped;
    fired, popped := h.Tick(now);
    TickFires(m, st, popped, h.Contents(), now);
    KeepsLater(m, st.held, popped, h.Contents(), now);
    StillCancelled(m, st, popped, h.Contents(), now);
  }

  method PerformCancel(h: TimeHeap, o: nat, ghost st: State)
    requires StandsFor(h, st) && Legal(st, Cancel(o))
    modifies h, h.arr
    ensures StandsFor(h, After(st, Cancel(o))) && h.arr == old(h.arr)
  {
    hide Keeps, HeapFrom;
    h.DelTimer(Timer(o, 0));
  }

  method Perform(h: TimeHeap, op: Op, ghost st: State) returns (fired: seq<Timer>)
    requires StandsFor(h, st) && LazyOp(op) && Legal(st, op)
    modifies h, h.arr
    ensures StandsFor(h, After(st, op)) && (fresh(h.arr) || h.arr == old(h.arr))
    ensures CalledBack(fired, st.held, Fires(st, op))
  {
    hide StandsFor, CalledBack, After, Legal;
    fired := [];
    NothingFired(st.held);
    match op
    case Add(o, expire) => PerformAdd(h, o, expire, st);
    case Cancel(o) => PerformCancel(h, o, st);
    case Tick(now) => fired := PerformTick(h, now, st);
  }

  lemma NothingFired(held: map<nat, int>)
    ensures CalledBack([], held, {})
  {
  }

  /** At each operation of any legal run, exactly what is due and not cancelled is called back, in order of expiry. */
  method Drive(h: TimeHeap, ops: seq<Op>, ghost st: State) returns (log: seq<seq<Timer>>)
    requires StandsFor(h, st) && LegalAll(st, ops) && forall i :: 0 <= i < |ops| ==> LazyOp(ops[i])
    modifies h, h.arr
    ensures StandsFor(h, AfterAll(st, ops)) && |log| == |ops|
    ensures forall i :: 0 <= i < |ops| ==> CalledBack(log[i], AfterAll(st, ops[..i]).held, FiresAt(st, ops, i))
  {
    hide StandsFor, CalledBack, LegalAll, After, Fires, Legal;
    log := [];
    assert ops[..0] == [];
    while |log| < |ops|
      invariant |log| <= |ops| && StandsFor(h, AfterAll(st, ops[..|log|])) && (fresh(h.arr) || h.arr == old(h.arr))
      invariant forall i :: 0 <= i < |log| ==> CalledBack(log[i], AfterAll(st, ops[..i]).held, FiresAt(st, ops, i))
      decreases |ops| - |log|
    {
      var k := |log|;
      LegalPrefix(st, ops, k);
      assert ops[..k + 1][..k] == ops[..k] && LazyOp(ops[k]);
      var fired := Perform(h, ops[k], AfterAll(st, ops[..k]));
      log := log + [fired];
    }
    assert ops[..|ops|] == ops;
  }

  /** From an empty heap. */
  method Run(capacity: nat, ops: seq<Op>) returns (h: TimeHeap, log: seq<seq<Timer>>)
    requires capacity >= 1 && LegalAll(State(map[], {}), ops) && forall i :: 0 <= i < |ops| ==> LazyOp(ops[i])
    ensures StandsFor(h, AfterAll(State(map[], {}), ops)) && |log| == |ops|
    ensures forall i :: 0 <= i < |ops| ==>
      CalledBack(log[i], AfterAll(State(map[], {}), ops[..i]).held, FiresAt(State(map[], {}), ops, i))
  {
    h := new TimeHeap(capacity);
    hide CalledBack, LegalAll, AfterAll;
    log := Drive(h, ops, State(map[], {}));
  }
}
