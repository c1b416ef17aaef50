/** When timers fire, over any run of adds, deletes and ticks. */
module TimeWheelRuns {
  import opened TimeWheel

  /** The address of an Add is the one that new returns. */
  datatype Op = Add(timeout: int, o: nat) | Del(o: nat) | Tick

  /** For each pending timer, the number of the tick on which it fires. */
  type Schedule = map<nat, int>

  function Ticks(timeout: int): int { if timeout < TI then 1 else timeout / TI }

  predicate Legal(due: Schedule, op: Op) {
    match op
    case Add(_, o) => o != 0 && o !in due
    case Del(o) => o == 0 || o in due
    case Tick => true
  }

  function After(due: Schedule, op: Op): Schedule {
    match op
    case Add(timeout, o) => if timeout < 0 then due else due[o := Ticks(timeout) + 1]
    case Del(o) => due - {o}
    case Tick => map o | o in due && due[o] != 1 :: due[o] - 1
  }

  function Fires(due: Schedule, op: Op): set<nat> {
    match op
    case Tick => set o | o in due && due[o] == 1
    case _ => {}
  }

  function AfterAll(due: Schedule, ops: seq<Op>): Schedule {
    if ops == [] then due else After(AfterAll(due, ops[..|ops| - 1]), ops[|ops| - 1])
  }

  predicate LegalAll(due: Schedule, ops: seq<Op>) {
    ops == [] || (LegalAll(due, ops[..|ops| - 1]) && Legal(AfterAll(due, ops[..|ops| - 1]), ops[|ops| - 1]))
  }

  function TickCount(ops: seq<Op>): nat {
    if ops == [] then 0 else TickCount(ops[..|ops| - 1]) + if ops[|ops| - 1].Tick? then 1 else 0
  }

  function FiresAt(due: Schedule, ops: seq<Op>, i: nat): set<nat>
    requires i < |ops|
  {
    Fires(AfterAll(due, ops[..i]), ops[i])
  }

  /** The schedule that a wheel in memory stands for. */
  function Pending(mem: Memory, cur: nat): Schedule { map o | o in mem :: Due(mem, cur, o) }

  /** Driving the wheel through the operations fires, at each, exactly what the schedule says. */
  method Drive(w: Wheel, ops: seq<Op>) returns (log: seq<seq<nat>>)
    requires w.Valid() && LegalAll(Pending(w.mem, w.cur), ops)
    modifies w
    ensures w.Valid() && Pending(w.mem, w.cur) == AfterAll(old(Pending(w.mem, w.cur)), ops)
    ensures |log| == |ops| && forall i :: 0 <= i < |ops| ==> NoDup(log[i])
    ensures forall i, o :: 0 <= i < |ops| ==> (o in log[i] <==> o in FiresAt(old(Pending(w.mem, w.cur)), ops, i))
  {
    hide Due, LegalAll, NoDup, Pending, After, Fires, Wheeled;
    ghost var due := Pending(w.mem, w.cur);
    log := [];
    assert ops[..0] == [];
    while |log| < |ops|
      invariant w.Valid() && |log| <= |ops| && Pending(w.mem, w.cur) == AfterAll(due, ops[..|log|])
      invariant forall i :: 0 <= i < |log| ==> NoDup(log[i])
      invariant forall i, o :: 0 <= i < |log| ==> (o in log[i] <==> o in FiresAt(due, ops, i))
      decreases |ops| - |log|
    {
      var k := |log|;
      LegalPrefix(due, ops, k);
      assert ops[..k + 1][..k] == ops[..k];
      var fired := Perform(w, ops[k]);
      log := log + [fired];
    }
    assert ops[..|ops|] == ops;
  }

  method Perform(w: Wheel, op: Op) returns (fired: seq<nat>)
    requires w.Valid() && Legal(Pending(w.mem, w.cur), op)
    modifies w
    ensures w.Valid() && NoDup(fired)
    ensures Pending(w.mem, w.cur) == After(old(Pending(w.mem, w.cur)), op)
    ensures forall o :: o in fired <==> o in Fires(old(Pending(w.mem, w.cur)), op)
  {
    hide Due, Wheeled;
    ghost var due := Pending(w.mem, w.cur);
    fired := [];
    match op
    case Add(timeout, o) =>
      var r := w.AddTimer(timeout, o);
      assert Pending(w.mem, w.cur) == After(due, op);
    case Del(o) =>
      w.DelTimer(o);
      assert Pending(w.mem, w.cur) == After(due, op);
    case Tick =>
      fired := w.Tick();
      assert Pending(w.mem, w.cur) == After(due, op);
  }

  lemma {:induction false} LegalPrefix(due: Schedule, ops: seq<Op>, k: nat)
    requires LegalAll(due, ops) && k < |ops|
    ensures LegalAll(due, ops[..k]) && Legal(AfterAll(due, ops[..k]), ops[k])
  {
    var n := |ops| - 1;
    if k < n {
      LegalPrefix(due, ops[..n], k);
      assert ops[..n][..k] == ops[..k];
    }
  }

  /** A pending timer that is not deleted comes one nearer with each tick. */
  lemma {:induction false} Countdown(due: Schedule, ops: seq<Op>, o: nat)
    requires o in due && TickCount(ops) < due[o] && LegalAll(due, ops) && Del(o) !in ops && o != 0
    ensures o in AfterAll(due, ops) && AfterAll(due, ops)[o] == due[o] - TickCount(ops)
  {
    if ops != [] {
      Countdown(due, ops[..|ops| - 1], o);
    }
  }

  /** A timer that is not pending and not added does not fire. */
  lemma {:induction false} Silent(due: Schedule, ops: seq<Op>, o: nat)
    requires o !in due && forall t :: Add(t, o) !in ops
    ensures o !in AfterAll(due, ops)
    ensures forall i :: 0 <= i < |ops| ==> o !in FiresAt(due, ops, i)
  {
    if ops != [] {
      var n := |ops| - 1;
      Silent(due, ops[..n], o);
      forall i | 0 <= i < n ensures o !in FiresAt(due, ops, i) {
        assert ops[..n][..i] == ops[..i] && ops[..n][i] == ops[i];
        assert o !in FiresAt(due, ops[..n], i);
      }
      assert ops[n].Add? ==> Add(ops[n].timeout, o) !in ops;
    }
  }

  /**
   * A timer added with timeout t >= 0 and not deleted, in any run: until then
   * it has not fired, it fires on the tick whose number after the add is
   * max(1, t / TI) + 1 and on no other, and then it is gone.
   */
  lemma {:induction false} FiresOnTime(due: Schedule, timeout: int, o: nat, ops: seq<Op>, i: nat)
    requires timeout >= 0 && Legal(due, Add(timeout, o)) && i < |ops|
    requires LegalAll(After(due, Add(timeout, o)), ops) && Del(o) !in ops
    requires TickCount(ops[..i]) <= Ticks(timeout)
    ensures var due1 := After(due, Add(timeout, o));
      && (o in FiresAt(due1, ops, i) <==> ops[i].Tick? && TickCount(ops[..i + 1]) == Ticks(timeout) + 1)
      && (o in FiresAt(due1, ops, i) <==>
          ops[i].Tick? && TickCount(ops[..i + 1]) == if timeout == 0 then 2 else timeout + 1)
      && (o in FiresAt(due1, ops, i) ==> o !in AfterAll(due1, ops[..i + 1]))
  {
    var due1 := After(due, Add(timeout, o));
    LegalPrefix(due1, ops, i);
    assert forall x :: x in ops[..i] ==> x in ops;
    Countdown(due1, ops[..i], o);
    assert ops[..i + 1][..i] == ops[..i];
  }

  /** And after it has fired it never fires again, unless the address is used for a new timer. */
  lemma {:induction false} FiresOnce(due: Schedule, ops: seq<Op>, o: nat, i: nat, j: nat)
    requires i < j < |ops| && o in FiresAt(due, ops, i) && forall t :: Add(t, o) !in ops
    ensures o !in FiresAt(due, ops, j)
  {
    var due1 := AfterAll(due, ops[..i + 1]);
    assert ops[..i + 1][..i] == ops[..i];
    var rest := ops[i + 1..];
    assert forall x :: x in rest ==> x in ops;
    Silent(due1, rest, o);
    AfterSplit(due, ops[..i + 1], rest[..j - i - 1]);
    assert ops[..i + 1] + rest[..j - i - 1] == ops[..j];
    assert o !in FiresAt(due1, rest, j - i - 1);
  }

  lemma {:induction false} AfterSplit(due: Schedule, a: seq<Op>, b: seq<Op>)
    ensures AfterAll(due, a + b) == AfterAll(AfterAll(due, a), b)
  {
    if b == [] {
      assert a + b == a;
    } else {
      assert (a + b)[..|a + b| - 1] == a + b[..|b| - 1];
      AfterSplit(due, a, b[..|b| - 1]);
    }
  }
}
